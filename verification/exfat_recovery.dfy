/** Crash recovery by replay: what every crash leaves intact, and where every recovery ends. */
module ExfatRecovery {
  import opened Bytes
  import opened ExfatScan
  import opened ExfatManifest
  import opened ExfatMeaning
  import opened ExfatBoot
  import opened ExfatOpen
  import opened ExfatDevice
  import opened ExfatProtocol
  import opened Wrappers

  /** What cell (i, j) held when the relayout was entered. */
  function CellContent(e: Job, i: nat, j: nat): (x: seq<byte>)
    requires Ready(e) && CellOf(e, i, j)
    ensures |x| == e.g.clusterSize
  {
    OwnedInside(e, i, j);
    e.orig[OwnedCell(e, i, j)]
  }

  /** A cluster that belongs to the workspace holds what was staged there. */
  ghost predicate StagedRight(e: Job, p: Place, x: seq<byte>)
    requires Ready(e)
  {
    forall i, j | CellOf(e, i, j) && StagedCell(e, i, j) == p :: x == CellContent(e, i, j)
  }

  predicate RootKnown(e: Job, head: seq<byte>)
    requires Ready(e) && |head| >= MIN_SECTOR
  {
    ReadyTargets(e);
    RootOf(head) == RootOf(e.orig[Head(Main)]) || RootOf(head) == e.targets[2]
  }

  predicate NewRoot(e: Job, head: seq<byte>)
    requires Ready(e)
  {
    ReadyTargets(e);
    |head| >= MIN_SECTOR && RootOf(head) == e.targets[2]
  }

  /** A boot sector describes the volume the journal does, and reports no media failure. */
  predicate Fits(e: Job, head: seq<byte>)
    requires Ready(e)
  {
    ReadyTargets(e);
    |head| >= MIN_SECTOR && SameVolume(e.orig[Head(Main)], head) && !MediaFailure(head)
  }

  /** Opening looks at the parameters and flags of the main copy only; this is what it does not look at. */
  predicate BackupFits(e: Job)
    requires Ready(e)
  {
    ReadyTargets(e);
    Fits(e, e.orig[Head(Backup)])
  }

  /** The checksum of the main copy does not change with the root; so it is when the root directory stays. */
  predicate Steady(e: Job)
    requires Ready(e)
  {
    ReadyTargets(e);
    HeadSum(NewHead(e, e.orig[Head(Main)]), e.orig[Mid(Main)]) == HeadSum(e.orig[Head(Main)], e.orig[Mid(Main)])
  }

  /** What a steady main copy keeps. */
  predicate SteadyAt(e: Job, p: Place, x: seq<byte>)
    requires Ready(e)
  {
    ReadyTargets(e);
    && (p == Head(Main) ==> Kin(e.orig[Head(Main)], x) && Fits(e, x))
    && (p == Mid(Main) ==> x == e.orig[Mid(Main)])
    && (p == Sum(Main) ==> Filled(x, HeadSum(e.orig[Head(Main)], e.orig[Mid(Main)])))
  }

  predicate HeadKept(e: Job, x: seq<byte>)
    requires Ready(e)
  {
    |x| >= MIN_SECTOR && x[3..11] == SIGNATURE && (BackupFits(e) ==> Fits(e, x))
  }

  /** What may be at a place once the manifest is published: the workspace is intact, the FAT keeps its first two
      entries, the main copy has the old or the new root, and what has fitted at the start still does. */
  ghost predicate Keeps(e: Job, p: Place, x: seq<byte>)
    requires Ready(e)
  {
    && |x| == SizeOf(e.g, p)
    && (p.Cluster? ==> StagedRight(e, p, x))
    && (p.Fat? ==> |x| >= 8 && x[..8] == e.orig[Fat][..8])
    && (p.Head? ==> HeadKept(e, x))
    && (p == Head(Main) ==> RootKnown(e, x))
    && (Steady(e) ==> SteadyAt(e, p, x))
  }

  ghost predicate Kept(e: Job, d: Device)
    requires Ready(e)
  {
    && d.Valid() && d.now.Keys == Places(e.g)
    && forall p, x | p in d.maybe && x in d.maybe[p] :: Keeps(e, p, x)
  }

  /** Whatever a crash leaves of this boot copy is valid. */
  ghost predicate Sure(d: Device, side: Side) {
    && Head(side) in d.maybe && Mid(side) in d.maybe && Sum(side) in d.maybe
    && forall h, r, s | h in d.maybe[Head(side)] && Mixed(d.maybe[Mid(side)], r) && s in d.maybe[Sum(side)] ::
         ValidCopy(h, r, s)
  }

  ghost predicate NewRoots(e: Job, d: Device)
    requires Ready(e)
  {
    Head(Backup) in d.maybe && forall h | h in d.maybe[Head(Backup)] :: NewRoot(e, h)
  }

  /** A copy to recover from: the main one, or a backup that has the new root. */
  ghost predicate Held(e: Job, d: Device, side: Side)
    requires Ready(e)
  {
    Sure(d, side) && (side == Backup ==> NewRoots(e, d))
  }

  /** A device from which recovery can start whenever it crashes. */
  ghost predicate Recoverable(e: Job, d: Device)
    requires Ready(e)
  {
    Kept(e, d) && (Held(e, d, Main) || Held(e, d, Backup)) && d.journal == Some(e.m)
  }

  /** An image from which recovery can start. */
  ghost predicate RecoverableImage(e: Job, img: Image)
    requires Ready(e)
  {
    && Sized(e.g, img)
    && (forall p | p in img :: Keeps(e, p, img[p]))
    && (CopyOk(img, Main) || (CopyOk(img, Backup) && NewRoot(e, img[Head(Backup)])))
  }

  lemma ReadySizes(e: Job)
    requires Ready(e)
    ensures Sized(e.g, e.orig) && e.g.fatLength >= 8 && |e.orig[Fat]| == e.g.fatLength
    ensures Head(Main) in e.orig && Head(Backup) in e.orig && Sum(Main) in e.orig && Sum(Backup) in e.orig
    ensures Mid(Main) in e.orig && Mid(Backup) in e.orig
    ensures |e.orig[Head(Main)]| == |e.orig[Head(Backup)]| == e.g.sectorSize >= MIN_SECTOR
  {
    ReadyTargets(e);
  }

  /** What opening has checked. */
  lemma OpenedMain(e: Job)
    requires Ready(e)
    ensures Sized(e.g, e.orig) && CopyOk(e.orig, Main) && CopyOk(e.orig, Backup) && !Dirty(e.orig[Head(Main)])
    ensures Kin(e.orig[Head(Main)], e.orig[Head(Main)]) && Fits(e, e.orig[Head(Main)])
    ensures OpenSector(e.orig[Head(Main)], e.device, false) == Ok(ParametersOf(e.orig[Head(Main)]))
  {
    hide ParametersOf, RootInside, Bounded, ValidCopy;
    ReadyTargets(e);
  }

  lemma ImageSized(e: Job, img: Image)
    requires Ready(e) && RecoverableImage(e, img)
    ensures Sized(e.g, img)
  {
  }

  lemma MixSame(options: set<seq<byte>>, got: seq<byte>, x: seq<byte>)
    requires Mixed(options, got) && forall o | o in options :: o == x
    ensures got == x
  {
    forall j | 0 <= j < |got| ensures j < |x| && got[j] == x[j] {
      var o :| o in options && j < |o| && o[j] == got[j];
    }
  }

  lemma MixedMore(a: set<seq<byte>>, b: set<seq<byte>>, got: seq<byte>)
    requires a <= b && Mixed(a, got)
    ensures Mixed(b, got)
  {
    forall j | 0 <= j < |got| ensures exists o | o in b :: j < |o| && o[j] == got[j] {
      var o :| o in a && j < |o| && o[j] == got[j];
      assert o in b;
    }
  }

  /** A torn write of contents that all keep what is needed keeps it too. */
  lemma MixKeeps(e: Job, p: Place, options: set<seq<byte>>, got: seq<byte>)
    requires Ready(e) && p in Places(e.g) && Survives(p, options, got)
    requires forall x | x in options :: Keeps(e, p, x)
    ensures Keeps(e, p, got)
  {
    hide Ready, HeadKept, RootKnown, CellContent, Steady, Fits;
    ReadySizes(e);
    if !Sector(p) {
      var o :| o in options && |o| == |got|;
      if p.Fat? {
        MixFat(e, options, got);
      } else if p.Cluster? {
        MixCluster(e, p, options, got, o);
      } else if Steady(e) && p == Mid(Main) {
        forall x | x in options ensures x == e.orig[Mid(Main)] {
          assert SteadyAt(e, p, x);
        }
        MixSame(options, got, e.orig[Mid(Main)]);
      }
    }
  }

  lemma MixFat(e: Job, options: set<seq<byte>>, got: seq<byte>)
    requires Ready(e) && Fat in e.orig && |e.orig[Fat]| >= 8 && Mixed(options, got) && |got| >= 8
    requires forall x | x in options :: Keeps(e, Fat, x)
    ensures got[..8] == e.orig[Fat][..8]
  {
    hide Ready, HeadKept, RootKnown, Steady;
    forall j | 0 <= j < 8 ensures got[j] == e.orig[Fat][..8][j] {
      var x :| x in options && j < |x| && x[j] == got[j];
      assert x[j] == x[..8][j];
    }
  }

  lemma MixCluster(e: Job, p: Place, options: set<seq<byte>>, got: seq<byte>, o: seq<byte>)
    requires Ready(e) && p.Cluster? && Mixed(options, got) && o in options && |o| == |got|
    requires forall x | x in options :: Keeps(e, p, x)
    ensures StagedRight(e, p, got)
  {
    hide Ready, HeadKept, RootKnown, Steady, CellContent;
    forall i, j | CellOf(e, i, j) && StagedCell(e, i, j) == p ensures got == CellContent(e, i, j) {
      var w := CellContent(e, i, j);
      forall k | 0 <= k < |got| ensures got[k] == w[k] {
        var x :| x in options && k < |x| && x[k] == got[k];
        assert StagedRight(e, p, x);
      }
      assert StagedRight(e, p, o);
    }
  }

  /** Every crash of a recoverable device leaves a recoverable image. */
  lemma CrashRecoverable(e: Job, d: Device, img: Image)
    requires Ready(e) && Recoverable(e, d) && AfterCrash(d, img)
    ensures RecoverableImage(e, img)
  {
    hide Ready, Keeps, ValidCopy, Places, SizeOf, NewRoot, Mixed;
    forall p | p in img ensures Keeps(e, p, img[p]) {
      MixKeeps(e, p, d.maybe[p], img[p]);
    }
    ReadySizes(e);
    forall p | p in img ensures |img[p]| == SizeOf(e.g, p) {
      KeepsSize(e, p, img[p]);
    }
    AllSides(e, img);
    forall side | Sure(d, side) ensures CopyOk(img, side) {
      CrashCopy(d, img, side);
    }
    assert Survives(Head(Backup), d.maybe[Head(Backup)], img[Head(Backup)]);
  }

  lemma AllSides(e: Job, img: Image)
    requires img.Keys == Places(e.g)
    ensures forall side :: Head(side) in img && Mid(side) in img && Sum(side) in img
  {
    forall side ensures Head(side) in img && Mid(side) in img && Sum(side) in img {
      assert side == Main || side == Backup;
    }
  }

  lemma CrashCopy(d: Device, img: Image, side: Side)
    requires AfterCrash(d, img) && Sure(d, side) && Head(side) in img && Mid(side) in img && Sum(side) in img
    ensures CopyOk(img, side)
  {
    hide ValidCopy, Mixed;
    assert Survives(Head(side), d.maybe[Head(side)], img[Head(side)]);
    assert Survives(Mid(side), d.maybe[Mid(side)], img[Mid(side)]);
    assert Survives(Sum(side), d.maybe[Sum(side)], img[Sum(side)]);
  }

  lemma KeepsSize(e: Job, p: Place, x: seq<byte>)
    requires Ready(e) && Keeps(e, p, x)
    ensures |x| == SizeOf(e.g, p)
    ensures p.Head? ==> HeadKept(e, x)
    ensures p == Head(Main) ==> RootKnown(e, x)
    ensures p.Fat? ==> |x| >= 8 && x[..8] == e.orig[Fat][..8]
    ensures p.Cluster? ==> StagedRight(e, p, x)
    ensures Steady(e) ==> SteadyAt(e, p, x)
  {
  }

  lemma SettledRecoverable(e: Job, img: Image)
    requires Ready(e) && RecoverableImage(e, img)
    ensures Recoverable(e, Settled(img, Some(e.m)))
    ensures Sure(Settled(img, Some(e.m)), Main) <==> CopyOk(img, Main)
    ensures Sure(Settled(img, Some(e.m)), Backup) <==> CopyOk(img, Backup)
  {
    hide Ready, Keeps, ValidCopy, Sure, CopyOk, Kept, NewRoot;
    SettledSure(e, img, Some(e.m), Main);
    SettledSure(e, img, Some(e.m), Backup);
    SettledKept(e, img);
    if CopyOk(img, Backup) && NewRoot(e, img[Head(Backup)]) {
      assert NewRoots(e, Settled(img, Some(e.m)));
    }
  }

  lemma SettledKept(e: Job, img: Image)
    requires Ready(e) && RecoverableImage(e, img)
    ensures Kept(e, Settled(img, Some(e.m)))
  {
    hide Ready, Keeps, CopyOk, NewRoot;
  }

  lemma SettledSure(e: Job, img: Image, journal: Option<seq<Record>>, side: Side)
    requires Sized(e.g, img)
    ensures Head(side) in img && Mid(side) in img && Sum(side) in img
    ensures Sure(Settled(img, journal), side) <==> CopyOk(img, side)
  {
    hide ValidCopy, Mixed;
    AllSides(e, img);
    forall r ensures Mixed({img[Mid(side)]}, r) <==> r == img[Mid(side)] {
      MixedOne(img[Mid(side)], r);
    }
  }

  /** A steady main copy is valid whatever a crash leaves. */
  lemma SteadySure(e: Job, d: Device)
    requires Ready(e) && Kept(e, d) && Steady(e)
    ensures Sure(d, Main)
  {
    hide Ready, Keeps, HeadSum, Mixed, Kin, Steady;
    ReadySizes(e);
    forall h, r, s | h in d.maybe[Head(Main)] && Mixed(d.maybe[Mid(Main)], r) && s in d.maybe[Sum(Main)]
      ensures ValidCopy(h, r, s)
    {
      forall x | x in d.maybe[Mid(Main)] ensures x == e.orig[Mid(Main)] {
        KeepsSize(e, Mid(Main), x);
      }
      MixSame(d.maybe[Mid(Main)], r, e.orig[Mid(Main)]);
      KeepsSize(e, Head(Main), h);
      KeepsSize(e, Sum(Main), s);
      SteadySum(e, h);
    }
  }

  lemma SteadySum(e: Job, h: seq<byte>)
    requires Ready(e) && Steady(e) && |h| >= MIN_SECTOR && RootKnown(e, h) && Sized(e.g, e.orig)
             && Kin(e.orig[Head(Main)], h)
    ensures HeadSum(h, e.orig[Mid(Main)]) == HeadSum(e.orig[Head(Main)], e.orig[Mid(Main)])
  {
    hide Ready, HeadSum, BootHead;
    ReadySizes(e);
    ReadyTargets(e);
    var old_ := e.orig[Head(Main)];
    if RootOf(h) == RootOf(old_) {
      KinSum(old_, h, e.orig[Mid(Main)]);
    } else {
      BootHeadFields(old_, e.targets[2], false, Percent(e));
      KinSum(NewHead(e, old_), h, e.orig[Mid(Main)]);
    }
  }

  // ---- always -----------------------------------------------------------------------------------

  /** Before every step of a run, and at its end, the device is recoverable. */
  ghost predicate Always(e: Job, d: Device, ops: seq<Op>)
    requires Ready(e)
  {
    forall k | 0 <= k <= |ops| :: Recoverable(e, Execute(d, ops[..k]))
  }

  lemma AlwaysConcat(e: Job, d: Device, a: seq<Op>, b: seq<Op>)
    requires Ready(e) && Always(e, d, a) && Always(e, Execute(d, a), b)
    ensures Always(e, d, a + b) && Execute(d, a + b) == Execute(Execute(d, a), b)
  {
    hide Ready, Recoverable;
    RunConcat(d, a, b);
    forall k | 0 <= k <= |a + b| ensures Recoverable(e, Execute(d, (a + b)[..k])) {
      if k <= |a| {
        assert (a + b)[..k] == a[..k];
      } else {
        assert (a + b)[..k] == a + b[..k - |a|];
        RunConcat(d, a, b[..k - |a|]);
      }
    }
  }

  lemma AlwaysEnd(e: Job, d: Device, ops: seq<Op>)
    requires Ready(e) && Always(e, d, ops)
    ensures Recoverable(e, Execute(d, ops))
  {
    assert ops[..|ops|] == ops;
  }

  /** Every write of the run keeps what recovery needs. */
  ghost predicate WritesKept(e: Job, ops: seq<Op>)
    requires Ready(e)
  {
    forall p, x | Writes(ops, p, x) :: p in Places(e.g) && Keeps(e, p, x)
  }

  lemma KeptRun(e: Job, d: Device, ops: seq<Op>)
    requires Ready(e) && Kept(e, d) && WritesKept(e, ops)
    ensures Kept(e, Execute(d, ops))
  {
    hide Ready, Keeps;
    RunValid(d, ops);
    var r := Execute(d, ops);
    forall p, x | p in r.maybe && x in r.maybe[p] ensures Keeps(e, p, x) {
      PossibleAfter(d, ops, p, x);
    }
  }

  /** A run of cluster and FAT writes. */
  predicate DataOnly(ops: seq<Op>) {
    forall op | op in ops :: op.Sync? || (op.Write? && !Boot(op.place))
  }

  lemma DataKeepsBoot(e: Job, d: Device, ops: seq<Op>, p: Place)
    requires Ready(e) && Kept(e, d) && DataOnly(ops) && Boot(p)
    ensures d.Valid() && p in d.now
    ensures p in Execute(d, ops).maybe && Execute(d, ops).maybe[p] <= d.maybe[p]
    ensures p in Execute(d, ops).now && Execute(d, ops).now[p] == d.now[p]
  {
    hide Ready, Keeps;
    assert p.side == Main || p.side == Backup;
    forall x ensures !Writes(ops, p, x) {
      assert Write(p, x) !in ops;
    }
    UntouchedKept(d, ops, p);
  }

  /** Placing, rolling back and rewriting the FAT never make a recoverable device unrecoverable. */
  lemma AlwaysData(e: Job, d: Device, ops: seq<Op>)
    requires Ready(e) && Recoverable(e, d) && DataOnly(ops) && WritesKept(e, ops)
    ensures Always(e, d, ops)
    ensures forall side | Sure(d, side) :: Sure(Execute(d, ops), side)
  {
    hide Ready, Keeps, ValidCopy;
    forall k | 0 <= k <= |ops| ensures Recoverable(e, Execute(d, ops[..k])) {
      PrefixKept(e, ops, k);
      DataRecoverable(e, d, ops[..k]);
    }
    DataRecoverable(e, d, ops);
  }

  lemma PrefixKept(e: Job, ops: seq<Op>, k: nat)
    requires Ready(e) && k <= |ops| && WritesKept(e, ops) && DataOnly(ops)
    ensures WritesKept(e, ops[..k]) && DataOnly(ops[..k])
  {
    hide Ready, Keeps;
    forall p, x | Writes(ops[..k], p, x) ensures Writes(ops, p, x) {
    }
  }

  lemma DataRecoverable(e: Job, d: Device, ops: seq<Op>)
    requires Ready(e) && Recoverable(e, d) && DataOnly(ops) && WritesKept(e, ops)
    ensures Recoverable(e, Execute(d, ops))
    ensures forall side | Sure(d, side) :: Sure(Execute(d, ops), side)
  {
    hide Ready, Keeps, ValidCopy, NewRoot, Sure;
    KeptRun(e, d, ops);
    QuietJournal(d, ops);
    forall side | Sure(d, side) ensures Sure(Execute(d, ops), side) {
      DataKeepsBoot(e, d, ops, Head(side));
      DataKeepsBoot(e, d, ops, Mid(side));
      DataKeepsBoot(e, d, ops, Sum(side));
      SureLess(d, Execute(d, ops), side);
    }
    DataKeepsBoot(e, d, ops, Head(Backup));
  }

  /** Fewer possibilities leave a sure copy sure. */
  lemma SureLess(d: Device, r: Device, side: Side)
    requires Sure(d, side)
    requires Head(side) in r.maybe && r.maybe[Head(side)] <= d.maybe[Head(side)]
    requires Mid(side) in r.maybe && r.maybe[Mid(side)] <= d.maybe[Mid(side)]
    requires Sum(side) in r.maybe && r.maybe[Sum(side)] <= d.maybe[Sum(side)]
    ensures Sure(r, side)
  {
    hide ValidCopy, Mixed;
    forall m | Mixed(r.maybe[Mid(side)], m) ensures Mixed(d.maybe[Mid(side)], m) {
      MixedMore(r.maybe[Mid(side)], d.maybe[Mid(side)], m);
    }
  }

  // ---- boot updates -----------------------------------------------------------------------------

  function Other(side: Side): Side {
    if side == Main then Backup else Main
  }

  ghost predicate CopyKept(e: Job, side: Side, c: Copy)
    requires Ready(e)
  {
    Keeps(e, Head(side), c.head) && Keeps(e, Mid(side), c.mid) && Keeps(e, Sum(side), c.sum)
  }

  /** Rewriting one boot copy while the other one can be recovered from. */
  lemma UpdateAlways(e: Job, d: Device, side: Side, c: Copy)
    requires Ready(e) && Recoverable(e, d) && Held(e, d, Other(side))
    requires CopyKept(e, side, c) && ValidCopy(c.head, c.mid, c.sum)
    ensures var ops := UpdateOps(side, c);
            && Always(e, d, ops) && Recoverable(e, Execute(d, ops))
            && Execute(d, ops) == Settled(WithCopy(d.now, side, c), d.journal)
            && Sure(Execute(d, ops), Main) && Sure(Execute(d, ops), Backup)
  {
    hide Ready, Keeps, ValidCopy, Sure, Kept, Apply, NewRoots, Held, Recoverable;
    var d1 := Apply(d, Write(Head(side), c.head));
    var d2 := Apply(d1, Write(Mid(side), c.mid));
    var d3 := Apply(d2, Write(Sum(side), c.sum));
    SidePlaces(e, side);
    OneWrite(e, d, Head(side), c.head, Other(side));
    OneWrite(e, d1, Mid(side), c.mid, Other(side));
    OneWrite(e, d2, Sum(side), c.sum, Other(side));
    OneSync(e, d3, Other(side));
    UpdateSteps(d, side, c);
    forall k | 0 <= k <= 4 ensures Recoverable(e, Execute(d, UpdateOps(side, c)[..k])) {
    }
    SyncedSure(d3, side);
    HeldSure(e, Apply(d3, Sync), Other(side));
  }

  lemma SidePlaces(e: Job, side: Side)
    ensures Head(side) in Places(e.g) && Mid(side) in Places(e.g) && Sum(side) in Places(e.g)
  {
    assert side == Main || side == Backup;
  }

  lemma HeldSure(e: Job, d: Device, side: Side)
    requires Ready(e) && Held(e, d, side)
    ensures Sure(d, side)
  {
  }

  predicate AtSide(p: Place, side: Side) {
    p == Head(side) || p == Mid(side) || p == Sum(side)
  }

  lemma OneWrite(e: Job, d: Device, p: Place, x: seq<byte>, held: Side)
    requires Ready(e) && Recoverable(e, d) && Held(e, d, held)
    requires p in Places(e.g) && !AtSide(p, held) && Keeps(e, p, x)
    ensures var r := Apply(d, Write(p, x));
            Recoverable(e, r) && Held(e, r, held) && r.now == d.now[p := x] && r.journal == d.journal
  {
    hide Ready, Keeps, ValidCopy, Places, NewRoot, Mixed;
  }

  /** A write to the main copy that leaves it valid for certain. */
  lemma MainWrite(e: Job, d: Device, p: Place, x: seq<byte>)
    requires Ready(e) && Recoverable(e, d) && p in Places(e.g) && Keeps(e, p, x)
    requires Sure(Apply(d, Write(p, x)), Main)
    ensures var r := Apply(d, Write(p, x)); Recoverable(e, r) && r.now == d.now[p := x] && r.journal == d.journal
  {
    hide Ready, Keeps, Places, NewRoot, Sure;
  }

  lemma OneSync(e: Job, d: Device, held: Side)
    requires Ready(e) && Recoverable(e, d) && Held(e, d, held)
    ensures var r := Apply(d, Sync); Recoverable(e, r) && Held(e, r, held) && r == Settled(d.now, d.journal)
  {
    hide Ready, Keeps, ValidCopy, NewRoot, Sure;
    SureSettled(d, held);
  }

  lemma SureSettled(d: Device, side: Side)
    requires d.Valid() && Sure(d, side)
    ensures Sure(Settled(d.now, d.journal), side)
  {
    SureLess(d, Settled(d.now, d.journal), side);
  }

  /** After a sync a copy that reads as valid is certain. */
  lemma SyncedSure(d: Device, side: Side)
    requires CopyOk(d.now, side)
    ensures Sure(Settled(d.now, d.journal), side)
  {
    hide ValidCopy, Mixed;
    forall r ensures Mixed({d.now[Mid(side)]}, r) <==> r == d.now[Mid(side)] {
      MixedOne(d.now[Mid(side)], r);
    }
  }

  lemma UpdateSteps(d: Device, side: Side, c: Copy)
    ensures var ops := UpdateOps(side, c);
            var d1 := Apply(d, Write(Head(side), c.head));
            var d2 := Apply(d1, Write(Mid(side), c.mid));
            var d3 := Apply(d2, Write(Sum(side), c.sum));
            && |ops| == 4 && Execute(d, ops[..0]) == d && Execute(d, ops[..1]) == d1 && Execute(d, ops[..2]) == d2
            && Execute(d, ops[..3]) == d3 && Execute(d, ops[..4]) == Execute(d, ops) == Apply(d3, Sync)
  {
    FourSteps(d, Write(Head(side), c.head), Write(Mid(side), c.mid), Write(Sum(side), c.sum), Sync);
  }

  lemma TwoSteps(d: Device, a: Op, b: Op)
    ensures var ops := [a, b];
            && Execute(d, ops[..0]) == d && Execute(d, ops[..1]) == Apply(d, a)
            && Execute(d, ops[..2]) == Execute(d, ops) == Apply(Apply(d, a), b)
  {
    var ops := [a, b];
    assert ops[..1][..0] == ops[..0] == [] && ops[..2][..1] == ops[..1] && ops[..2] == ops;
  }

  lemma FourSteps(d: Device, a: Op, b: Op, c: Op, f: Op)
    ensures var ops := [a, b, c, f];
            && Execute(d, ops[..0]) == d && Execute(d, ops[..1]) == Apply(d, a)
               && Execute(d, ops[..2]) == Apply(Apply(d, a), b)
            && Execute(d, ops[..3]) == Apply(Apply(Apply(d, a), b), c)
            && Execute(d, ops[..4]) == Execute(d, ops) == Apply(Apply(Apply(Apply(d, a), b), c), f)
  {
    var ops := [a, b, c, f];
    TwoSteps(d, a, b);
    assert ops[..1] == [a, b][..1] && ops[..2] == [a, b] && ops[..0] == [a, b][..0];
    assert ops[..3] == [a, b] + [c] && ops[..4] == ops == [a, b] + [c] + [f];
    RunSome(d, [a, b], c);
    RunSome(d, [a, b] + [c], f);
  }

  // ---- what the traces write --------------------------------------------------------------------

  /** Placing writes canonical pieces to target cells of the placed records, */
  lemma {:induction false} PlaceWrites(e: Job, order: seq<nat>, n: nat, p: Place, x: seq<byte>) returns (k: nat, j: nat)
    requires Ready(e) && n <= |order| && (forall k | 0 <= k < |order| :: order[k] < |e.m|)
    requires Writes(PlaceOps(e, order, n), p, x)
    ensures |e.m| == |e.lists| == |e.targets|
    ensures k < n && CellOf(e, order[k], j) && p == TargetCell(e, order[k], j) && x == CanonicalPiece(e, order[k], j)
  {
    hide Ready, Splits, Piece;
    ReadyTargets(e);
    var i := order[n - 1];
    var tail := RunOps(e.payloads[i], e.g.clusterSize, e.targets[i], |e.lists[i]|);
    if Writes(PlaceOps(e, order, n - 1), p, x) {
      k, j := PlaceWrites(e, order, n - 1, p, x);
    } else {
      assert Write(p, x) in tail;
      j :| j < |tail| && tail[j] == Write(p, x);
      k := n - 1;
    }
  }

  /** and every one of them. */
  lemma {:induction false} PlaceCovers(e: Job, order: seq<nat>, n: nat, k: nat, j: nat)
    requires Ready(e) && n <= |order| && (forall k | 0 <= k < |order| :: order[k] < |e.m|)
    requires k < n && CellOf(e, order[k], j)
    ensures |e.m| == |e.lists| == |e.targets|
    ensures Writes(PlaceOps(e, order, n), TargetCell(e, order[k], j), CanonicalPiece(e, order[k], j))
  {
    hide Ready, Splits, Piece;
    ReadyTargets(e);
    var i := order[n - 1];
    var tail := RunOps(e.payloads[i], e.g.clusterSize, e.targets[i], |e.lists[i]|);
    var whole := PlaceOps(e, order, n);
    assert whole == PlaceOps(e, order, n - 1) + tail;
    if k < n - 1 {
      PlaceCovers(e, order, n - 1, k, j);
    } else {
      assert tail[j] == Write(TargetCell(e, i, j), CanonicalPiece(e, i, j));
    }
  }

  lemma {:induction false} PlaceIsData(e: Job, order: seq<nat>, n: nat)
    requires Ready(e) && n <= |order| && (forall k | 0 <= k < |order| :: order[k] < |e.m|)
    ensures forall op | op in PlaceOps(e, order, n) :: op.Write? && op.place.Cluster?
  {
    hide Ready, Splits, Piece;
    if n > 0 {
      ReadyTargets(e);
      PlaceIsData(e, order, n - 1);
    }
  }

  lemma {:induction false} BackWrites(e: Job, n: nat, p: Place, x: seq<byte>) returns (i: nat, j: nat)
    requires Ready(e) && n <= |e.lists| && Writes(BackOps(e, n), p, x)
    ensures i < n && CellOf(e, i, j) && p == OwnedCell(e, i, j) && x == CellContent(e, i, j)
  {
    hide Ready;
    ObjectReadable(e, n - 1);
    var clusters := e.lists[n - 1];
    var tail := CopyOps(e.orig, clusters, clusters);
    if Writes(BackOps(e, n - 1), p, x) {
      i, j := BackWrites(e, n - 1, p, x);
    } else {
      assert Write(p, x) in tail;
      j :| j < |tail| && tail[j] == Write(p, x);
      i := n - 1;
    }
  }

  lemma {:induction false} BackCovers(e: Job, n: nat, i: nat, j: nat)
    requires Ready(e) && n <= |e.lists| && i < n && CellOf(e, i, j)
    ensures Writes(BackOps(e, n), OwnedCell(e, i, j), CellContent(e, i, j))
  {
    hide Ready;
    ObjectReadable(e, n - 1);
    var clusters := e.lists[n - 1];
    var tail := CopyOps(e.orig, clusters, clusters);
    assert BackOps(e, n) == BackOps(e, n - 1) + tail;
    if i < n - 1 {
      BackCovers(e, n - 1, i, j);
    } else {
      assert tail[j] == Write(OwnedCell(e, i, j), CellContent(e, i, j));
    }
  }

  lemma {:induction false} BackIsData(e: Job, n: nat)
    requires Ready(e) && n <= |e.lists|
    ensures forall op | op in BackOps(e, n) :: op.Write? && op.place.Cluster?
  {
    hide Ready;
    if n > 0 {
      ObjectReadable(e, n - 1);
      BackIsData(e, n - 1);
    }
  }

  lemma {:induction false} StageWrites(e: Job, n: nat, p: Place, x: seq<byte>) returns (i: nat, j: nat)
    requires Ready(e) && n <= |e.lists| && Writes(StageOps(e, n), p, x)
    ensures i < n && CellOf(e, i, j) && p == StagedCell(e, i, j) && x == CellContent(e, i, j)
  {
    hide Ready, Total;
    ObjectReadable(e, n - 1);
    var clusters := e.lists[n - 1];
    var tail := CopyOps(e.orig, clusters, Run(e.workspace + Total(e.lists, n - 1), |clusters|));
    if Writes(StageOps(e, n - 1), p, x) {
      i, j := StageWrites(e, n - 1, p, x);
    } else {
      assert Write(p, x) in tail;
      j :| j < |tail| && tail[j] == Write(p, x);
      i := n - 1;
    }
  }

  lemma {:induction false} StageCovers(e: Job, n: nat, i: nat, j: nat)
    requires Ready(e) && n <= |e.lists| && i < n && CellOf(e, i, j)
    ensures Writes(StageOps(e, n), StagedCell(e, i, j), CellContent(e, i, j))
  {
    hide Ready, Total;
    ObjectReadable(e, n - 1);
    var clusters := e.lists[n - 1];
    var tail := CopyOps(e.orig, clusters, Run(e.workspace + Total(e.lists, n - 1), |clusters|));
    assert StageOps(e, n) == StageOps(e, n - 1) + tail;
    if i < n - 1 {
      StageCovers(e, n - 1, i, j);
    } else {
      assert tail[j] == Write(StagedCell(e, i, j), CellContent(e, i, j));
    }
  }

  lemma {:induction false} StageIsData(e: Job, n: nat)
    requires Ready(e) && n <= |e.lists|
    ensures forall op | op in StageOps(e, n) :: op.Write? && op.place.Cluster?
  {
    hide Ready, Total;
    if n > 0 {
      ObjectReadable(e, n - 1);
      StageIsData(e, n - 1);
    }
  }

  /** No write to a cluster below the workspace touches what is staged. */
  lemma BelowKeeps(e: Job, c: nat, x: seq<byte>)
    requires Ready(e) && 2 <= c < e.workspace && |x| == e.g.clusterSize
    ensures Cluster(c) in Places(e.g) && Keeps(e, Cluster(c), x)
  {
    hide CellContent, Allocated, GoodTargets, Populate, BootReady, Total;
    forall i, j | CellOf(e, i, j) ensures StagedCell(e, i, j) != Cluster(c) {
      StagedInside(e, i, j);
    }
  }

  lemma PlaceKept(e: Job, order: seq<nat>, n: nat)
    requires Ready(e) && n <= |order| && forall k | 0 <= k < |order| :: order[k] < |e.m|
    ensures WritesKept(e, PlaceOps(e, order, n)) && DataOnly(PlaceOps(e, order, n))
  {
    hide Ready, Keeps, PlaceOps, CanonicalPiece;
    PlaceIsData(e, order, n);
    ReadyTargets(e);
    forall p, x | Writes(PlaceOps(e, order, n), p, x) ensures p in Places(e.g) && Keeps(e, p, x) {
      var k, j := PlaceWrites(e, order, n, p, x);
      TargetInside(e, order[k], j);
      BelowKeeps(e, p.number, x);
    }
  }

  lemma BackKept(e: Job, n: nat)
    requires Ready(e) && n <= |e.lists|
    ensures WritesKept(e, BackOps(e, n)) && DataOnly(BackOps(e, n))
  {
    hide Ready, Keeps, BackOps, CellContent;
    BackIsData(e, n);
    forall p, x | Writes(BackOps(e, n), p, x) ensures p in Places(e.g) && Keeps(e, p, x) {
      var i, j := BackWrites(e, n, p, x);
      OwnedInside(e, i, j);
      BelowKeeps(e, p.number, x);
    }
  }
}
