/** Committing the verified Amiga image to the target: crashes, Stop and recovery in any order. */
module AffsCommit {
  import opened Wrappers
  import opened AffsBlocks
  import opened AffsVolume
  import opened AffsRescan
  import opened AffsStage
  import opened AffsLayout
  import opened AffsFinish

  /** One transaction: the volume as it was scanned, and the image built from it. */
  datatype Tx = Tx(src: Volume, c: Catalogue, growth: bool)

  ghost predicate TxOk(tx: Tx) {
    Scan(tx.src) == Some(tx.c) && Sound(tx.c) && Build(tx.src, tx.c, tx.growth).Some?
  }

  function Image(tx: Tx): Stage
    requires Scan(tx.src) == Some(tx.c) && Build(tx.src, tx.c, tx.growth).Some?
  {
    Build(tx.src, tx.c, tx.growth).value
  }

  /** What the identity of a volume is taken from. */
  function Identity(vol: Volume): (Block, Block, Block)
    requires |vol| >= 2
  {
    (vol[0], vol[1], vol[|vol| / 2])
  }

  // ---- volumes between source and image ---------------------------------------------------------

  /** Every block is the source's or, where the image is allocated, the image's. */
  ghost predicate Partly(tx: Tx, vol: Volume)
    requires TxOk(tx)
  {
    && |vol| == |tx.src|
    && forall n | 0 <= n < |vol| :: vol[n] == tx.src[n] || (!Image(tx).free[n] && vol[n] == Image(tx).disk[n])
  }

  /** All allocated blocks below k are the image's. */
  ghost predicate CommittedTo(tx: Tx, vol: Volume, k: nat)
    requires TxOk(tx)
  {
    && |vol| == |tx.src|
    && forall n | 0 <= n < |vol| && n < k && !Image(tx).free[n] :: vol[n] == Image(tx).disk[n]
  }

  lemma IdentityKept(tx: Tx, vol: Volume)
    requires TxOk(tx) && Partly(tx, vol)
    ensures |vol| >= 20 && Identity(vol) == Identity(tx.src)
  {
    hide Scan, Build, Sound;
    ScanParts(tx.src, tx.c);
    StageLaidOut(tx.src, tx.c, tx.growth);
    IdentityInRest(tx.src, tx.c);
  }

  lemma IdentityInRest(src: Volume, c: Catalogue)
    requires Scan(src) == Some(c) && Sound(c)
    ensures 0 in Rest(c) && 1 in Rest(c) && |src| / 2 in Rest(c)
    ensures 0 !in c.pages && 1 !in c.pages && |src| / 2 !in c.pages
  {
    RootWalked(src, c);
    RestApart(c);
    PartsApart(c);
    var boot := [0, 1] + c.exts;
    assert Rest(c) == (boot + c.pages) + c.dirs;
    AppendApart(boot + c.pages, c.dirs);
    AppendApart(boot, c.pages);
    assert 1 in [0, 1];
  }

  lemma RootWalked(src: Volume, c: Catalogue)
    requires Scan(src) == Some(c)
    ensures |src| / 2 in c.dirs
  {
    hide ReadFree, BitmapPages, BlockOk, WalkHash;
  }

  /** A volume that holds the image on every allocated block scans like the image, and its files carry its bytes. */
  lemma CommittedScans(tx: Tx, vol: Volume)
    requires TxOk(tx) && CommittedTo(tx, vol, |tx.src|)
    ensures Scan(vol) == Scan(Image(tx).disk)
    ensures Scan(vol) == Some(tx.c.(free := Image(tx).free, files := News(tx.c.files, Image(tx).starts)))
    ensures VerifyLayout(vol, tx.growth)
  {
    hide Scan, Build, Sound, ScanFile, ReadFree, Metadata, FileLaidOut;
    var fin := Image(tx);
    var c := tx.c.(free := fin.free, files := News(tx.c.files, fin.starts));
    StageScans(tx.src, tx.c, tx.growth);
    StageLaidOut(tx.src, tx.c, tx.growth);
    ScanParts(fin.disk, c);
    ScanFits(fin.disk, c);
    HeadersRight(fin.disk, c);
    MetadataHas(tx.c);
    forall n | n in Metadata(tx.c) ensures n < |vol| && vol[n] == fin.disk[n] {
      MetadataUsed(tx.c, n);
    }
    ReadFreeSame(fin.disk, vol, c.pages);
    forall i | 0 <= i < |c.files|
      ensures ScanFile(vol, c.ffs, c.files[i].header) == Some(c.files[i])
              && vol[c.files[i].header] == fin.disk[c.files[i].header]
    {
      OwnsMetadata(tx.c, i);
      ScanFileSame(fin.disk, vol, c.ffs, c.files[i].header);
    }
    Rescan(fin.disk, vol, c, c.free, c.files);
  }

  /** Every file of the committed volume carries the bytes it had in the source. */
  lemma CommittedKeepsBytes(tx: Tx, vol: Volume, i: nat)
    requires TxOk(tx) && CommittedTo(tx, vol, |tx.src|) && i < |tx.c.files|
    ensures var f := tx.c.files[i]; var g := News(tx.c.files, Image(tx).starts)[i];
            Addresses(f.data, |tx.src|) && Addresses(g.data, |vol|)
                && FileBytes(vol, tx.c.ffs, g) == FileBytes(tx.src, tx.c.ffs, f)
  {
    hide Scan, Build, Sound, Payload, Apart, Earliest, VerifyLayout, Cleared;
    var fin := Image(tx);
    var f, g := tx.c.files[i], News(tx.c.files, fin.starts)[i];
    StageKeepsBytes(tx.src, tx.c, tx.growth, i);
    StageLaidOut(tx.src, tx.c, tx.growth);
    forall j | 0 <= j < |g.data| ensures vol[g.data[j]] == fin.disk[g.data[j]] {
      assert InTarget(f, fin.starts[i], g.data[j]);
      assert Occupied(tx.c.files, fin.starts, |tx.c.files|, g.data[j]);
    }
    assert FileBytes(vol, tx.c.ffs, g) == FileBytes(fin.disk, tx.c.ffs, g);
  }

  // ---- the transaction --------------------------------------------------------------------------

  datatype Phase = Staged | Committing | Committed

  /** The journal, until the transaction's files are removed: because it completed, or withdrawn before any write. */
  datatype Journal = Saved(phase: Phase) | Completed | Withdrawn

  /** Where the process is; Refused means that one of its checks failed. */
  datatype Pc = Off | Checked | Writing(at: nat) | Synced | Verified | Published | Refused

  /** The durable target, the target as the process sees it, the durable journal, whether this is still the run that
      built the image, the process. */
  datatype World = World(durable: Volume, view: Volume, journal: Journal, first: bool, pc: Pc)

  datatype Step =
    | Recover
    | Mark
    | Write(count: nat)
    | Sync
    | Verify
    | Publish
    | Cleanup
    | Stop
    | Crash(kept: set<nat>)

  /** The blocks lost or kept by a crash, one by one. */
  function Survives(w: World, kept: set<nat>): (r: Volume)
    requires |w.durable| == |w.view|
    ensures |r| == |w.view|
  {
    seq(|w.view|, n requires 0 <= n < |w.view| => if n in kept then w.view[n] else w.durable[n])
  }

  /** Blocks [from, to) that the image has allocated, copied over. */
  function Overwritten(vol: Volume, image: Stage, from: nat, to: nat): (r: Volume)
    requires |vol| == |image.disk| == |image.free|
    ensures |r| == |vol|
  {
    seq(|vol|, n requires 0 <= n < |vol| => if from <= n < to && !image.free[n] then image.disk[n] else vol[n])
  }

  predicate Enabled(tx: Tx, w: World, step: Step)
    requires Scan(tx.src) == Some(tx.c) && Build(tx.src, tx.c, tx.growth).Some?
  {
    match step
    case Recover => w.pc.Off? && w.journal.Saved?
    case Mark => w.pc.Checked?
    case Write(count) => w.pc.Writing? && count > 0 && w.pc.at + count <= |tx.src|
    case Sync => w.pc.Writing? && w.pc.at == |tx.src|
    case Verify => w.pc.Synced?
    case Publish => w.pc.Verified?
    case Cleanup => w.pc.Published?
    case Stop => w.pc.Writing? || w.pc.Checked?
    case Crash(_) => true
  }

  /** A step of the transaction or of its recovery. A first run enters with the journal staged and its checks done. */
  function Next(tx: Tx, w: World, step: Step): World
    requires Scan(tx.src) == Some(tx.c) && Build(tx.src, tx.c, tx.growth).Some?
    requires |w.durable| == |w.view| == |tx.src| && Enabled(tx, w, step)
  {
    match step
    case Recover =>
      if Identity(w.view) != Identity(tx.src) || !VerifyLayout(Image(tx).disk, tx.growth) then w.(pc := Refused)
      else if w.journal == Saved(Committed)
          then w.(pc := if VerifyLayout(w.view, tx.growth) then Published else Refused)
      else w.(pc := Checked)
    case Mark => w.(journal := Saved(Committing), pc := Writing(0))
    case Write(count) =>
          w.(view := Overwritten(w.view, Image(tx), w.pc.at, w.pc.at + count), pc := Writing(w.pc.at + count))
    case Sync => w.(durable := w.view, pc := Synced)
    case Verify => w.(pc := if VerifyLayout(w.view, tx.growth) then Verified else Refused)
    case Publish => w.(journal := Saved(Committed), pc := Published)
    case Cleanup => w.(journal := Completed, pc := Off)
    case Stop =>
      if w.pc.Writing? then w.(durable := w.view, pc := Off, first := false)
      else if w.first then w.(journal := Withdrawn, pc := Off)
      else w.(pc := Off)
    case Crash(kept) => w.(durable := Survives(w, kept), view := Survives(w, kept), first := false, pc := Off)
  }

  /** The journal has just been saved and nothing has been written. */
  function Start(tx: Tx): World {
    World(tx.src, tx.src, Saved(Staged), true, Checked)
  }

  ghost predicate Inv(tx: Tx, w: World)
    requires TxOk(tx)
  {
    && Partly(tx, w.durable) && Partly(tx, w.view)
    && !w.pc.Refused?
    && (w.pc.Writing? ==> w.pc.at <= |tx.src| && CommittedTo(tx, w.view, w.pc.at))
    && (w.pc.Synced? || w.pc.Verified? || w.pc.Published? || w.journal == Saved(Committed) || w.journal.Completed? ==>
          CommittedTo(tx, w.durable, |tx.src|) && w.view == w.durable)
    && (w.journal.Withdrawn? || (w.first && w.pc.Checked?) ==> w.durable == w.view == tx.src)
    && (w.pc.Published? ==> w.journal == Saved(Committed))
    && (w.pc.Writing? || w.pc.Synced? || w.pc.Verified? ==> w.journal == Saved(Committing))
    && (w.pc.Checked? ==> w.journal.Saved? && w.journal != Saved(Committed))
    && (w.first && w.pc.Off? ==> w.journal.Withdrawn? || w.journal.Completed?)
  }

  lemma StartInv(tx: Tx)
    requires TxOk(tx)
    ensures Inv(tx, Start(tx))
  {
    hide Scan, Build, Sound;
  }

  lemma StepInv(tx: Tx, w: World, step: Step)
    requires TxOk(tx) && Inv(tx, w) && Enabled(tx, w, step)
    ensures Inv(tx, Next(tx, w, step))
  {
    hide Scan, Build, Sound, VerifyLayout;
    match step
    case Recover => RecoverInv(tx, w);
    case Verify => CommittedScans(tx, w.view);
    case Crash(kept) => CrashKeeps(tx, w, kept);
    case _ =>
  }

  lemma RecoverInv(tx: Tx, w: World)
    requires TxOk(tx) && Inv(tx, w) && |w.durable| == |w.view| == |tx.src| && Enabled(tx, w, Recover)
    ensures Inv(tx, Next(tx, w, Recover))
  {
    hide Scan, Build, Sound, VerifyLayout, Identity, Apart, Earliest;
    IdentityKept(tx, w.view);
    StageLaidOut(tx.src, tx.c, tx.growth);
    assert VerifyLayout(Image(tx).disk, tx.growth);
    if w.journal == Saved(Committed) {
      CommittedScans(tx, w.view);
    }
  }

  lemma CrashKeeps(tx: Tx, w: World, kept: set<nat>)
    requires TxOk(tx) && |w.durable| == |w.view| == |tx.src|
    ensures Partly(tx, w.durable) && Partly(tx, w.view) ==> Partly(tx, Survives(w, kept))
    ensures w.durable == w.view ==> Survives(w, kept) == w.durable
  {
    hide Scan, Build, Sound;
  }

  /** Where a sequence of steps leads; None if one of them is not possible where it is taken. */
  function Play(tx: Tx, steps: seq<Step>): (r: Option<World>)
    requires Scan(tx.src) == Some(tx.c) && Build(tx.src, tx.c, tx.growth).Some?
    ensures r.Some? ==> |r.value.durable| == |r.value.view| == |tx.src|
  {
    if steps == [] then Some(Start(tx))
    else
      var last := steps[|steps| - 1];
      match Play(tx, steps[..|steps| - 1])
      case None => None
      case Some(w) => if Enabled(tx, w, last) then Some(Next(tx, w, last)) else None
  }

  /** Over any number of crashes, each keeping any subset of the writes not yet synced, Stops and recoveries: no check
      of the process ever fails, the identity of the target is that of the source, and every block is the source's or
      the image's. */
  lemma {:induction false} NeverRefused(tx: Tx, steps: seq<Step>)
    requires TxOk(tx) && Play(tx, steps).Some?
    ensures Inv(tx, Play(tx, steps).value)
    ensures var w := Play(tx, steps).value;
            !w.pc.Refused? && |w.durable| >= 20 && Identity(w.durable) == Identity(tx.src)
  {
    hide Scan, Build, Sound, Inv;
    if steps == [] {
      StartInv(tx);
    } else {
      NeverRefused(tx, steps[..|steps| - 1]);
      StepInv(tx, Play(tx, steps[..|steps| - 1]).value, steps[|steps| - 1]);
    }
    InvIdentity(tx, Play(tx, steps).value);
  }

  lemma InvIdentity(tx: Tx, w: World)
    requires TxOk(tx) && Inv(tx, w)
    ensures !w.pc.Refused? && |w.durable| >= 20 && Identity(w.durable) == Identity(tx.src)
  {
    hide Scan, Build, Sound;
    IdentityKept(tx, w.durable);
  }

  /** Once the transaction is completed, or the journal says committed, the durable target holds the image on every
      allocated block: it scans to the same files in their runs, with the bytes they had in the source, and the layout
      check passes. */
  lemma DoneIsRelaid(tx: Tx, steps: seq<Step>)
    requires TxOk(tx) && Play(tx, steps).Some?
    requires var w := Play(tx, steps).value; w.journal.Completed? || w.journal == Saved(Committed)
    ensures var vol := Play(tx, steps).value.durable;
            && Scan(vol) == Some(tx.c.(free := Image(tx).free, files := News(tx.c.files, Image(tx).starts)))
            && VerifyLayout(vol, tx.growth)
            && forall i | 0 <= i < |tx.c.files| ::
                 var f := tx.c.files[i]; var g := News(tx.c.files, Image(tx).starts)[i];
                 Addresses(f.data, |tx.src|) && Addresses(g.data, |vol|)
                     && FileBytes(vol, tx.c.ffs, g) == FileBytes(tx.src, tx.c.ffs, f)
  {
    hide Scan, Build, Sound, VerifyLayout;
    NeverRefused(tx, steps);
    var vol := Play(tx, steps).value.durable;
    CommittedScans(tx, vol);
    forall i | 0 <= i < |tx.c.files|
      ensures var f := tx.c.files[i]; var g := News(tx.c.files, Image(tx).starts)[i];
              Addresses(f.data, |tx.src|) && Addresses(g.data, |vol|)
                  && FileBytes(vol, tx.c.ffs, g) == FileBytes(tx.src, tx.c.ffs, f)
    {
      CommittedKeepsBytes(tx, vol, i);
    }
  }

  /** A Stop before the first write takes the transaction back: the target is untouched. */
  lemma WithdrawnIsUntouched(tx: Tx, steps: seq<Step>)
    requires TxOk(tx) && Play(tx, steps).Some? && Play(tx, steps).value.journal.Withdrawn?
    ensures Play(tx, steps).value.durable == tx.src
  {
    hide Scan, Build, Sound, Partly;
    NeverRefused(tx, steps);
  }

  /** What the process does next when nothing disturbs it. */
  function Onward(tx: Tx, w: World): Step {
    match w.pc
    case Off => Recover
    case Checked => Mark
    case Writing(at) => if at < |tx.src| then Write(|tx.src| - at) else Sync
    case Synced => Verify
    case Verified => Publish
    case _ => Cleanup
  }

  function Left(tx: Tx, w: World): nat {
    match w.pc
    case Off => if w.journal.Saved? then 7 else 0
    case Checked => 6
    case Writing(at) => if at < |tx.src| then 5 else 4
    case Synced => 3
    case Verified => 2
    case _ => 1
  }

  /** From every state that still has a journal the undisturbed process can go on, and is nearer to completion. */
  lemma RecoveryProgresses(tx: Tx, w: World)
    requires TxOk(tx) && Inv(tx, w) && w.journal.Saved?
    ensures |w.durable| == |w.view| == |tx.src| && Enabled(tx, w, Onward(tx, w))
    ensures Left(tx, Next(tx, w, Onward(tx, w))) < Left(tx, w)
    ensures Inv(tx, Next(tx, w, Onward(tx, w)))
  {
    hide Scan, Build, Sound, VerifyLayout, Identity, CommittedTo;
    StepInv(tx, w, Onward(tx, w));
  }
}
