/** Crashes and resumption of the redo commit: what the journal promises about the body, and which crashes leave a
    volume that a resumed commit agrees to open. */
module ExfatResume {
  import opened Bytes
  import opened ExfatBoot
  import opened ExfatOpen
  import opened ExfatRedo
  import Wrappers

  // ---- boot copies ------------------------------------------------------------------------------

  /** The sectors of a boot copy that a commit changes: sector 0 and the checksum sector. */
  datatype Copy = Copy(head: seq<byte>, sum: seq<byte>)

  datatype Boots = Boots(main: Copy, backup: Copy)

  /** What a crash can leave in each of the four sectors. */
  datatype Options = Options(mainHead: set<seq<byte>>, mainSum: set<seq<byte>>, backupHead: set<seq<byte>>,
      backupSum: set<seq<byte>>)
  {
    predicate Has(b: Boots) {
      b.main.head in mainHead && b.main.sum in mainSum && b.backup.head in backupHead && b.backup.sum in backupSum
    }

    function With(b: Boots): Options {
      Options(mainHead + {b.main.head}, mainSum + {b.main.sum}, backupHead + {b.backup.head},
          backupSum + {b.backup.sum})
    }
  }

  function Only(b: Boots): Options {
    Options({b.main.head}, {b.main.sum}, {b.backup.head}, {b.backup.sum})
  }

  /** One commit: the ranges, the verified stage, the boot copies of the target before it and of the stage, and what the
      target has to open as; device is its size in bytes. Sectors 1 to 10 of each copy never change. */
  datatype Tx = Tx(b: Body, stage: seq<byte>, device: nat, params: Parameters, restMain: seq<byte>,
      restBackup: seq<byte>,
      found: Boots, clean: Boots, percent: byte)

  /** A scan leaves the planned start of every object at zero, and the dirty boot copies are made from a scan. */
  const UNPLANNED: nat := 0

  function DirtyCopy(c: Copy, rest: seq<byte>, percent: byte): (r: Copy)
    requires |c.head| >= MIN_SECTOR
    ensures |r.head| == |c.head|
  {
    var h := BootHead(c.head, UNPLANNED, true, percent);
    Copy(h, SumSector(|c.sum|, HeadSum(h, rest)))
  }

  function DirtyBoots(tx: Tx): Boots
    requires TxOk(tx)
  {
    Boots(DirtyCopy(tx.clean.main, tx.restMain, tx.percent), DirtyCopy(tx.clean.backup, tx.restBackup, tx.percent))
  }

  /** Sector 0 passes the open checks, and names the volume of the journal and the geometry of the stage. */
  predicate OpensTo(tx: Tx, head: seq<byte>) {
    |head| >= MIN_SECTOR && OpenSector(head, tx.device, true) == Wrappers.Ok(tx.params)
  }

  /** The same, with the dirty flag allowed for a recovery only. */
  predicate OpensFor(tx: Tx, head: seq<byte>, recovery: bool) {
    |head| >= MIN_SECTOR && OpenSector(head, tx.device, recovery) == Wrappers.Ok(tx.params)
  }

  lemma OpensForExactly(tx: Tx, head: seq<byte>, recovery: bool)
    ensures OpensFor(tx, head, recovery) <==> OpensTo(tx, head) && (recovery || !Dirty(head))
  {
    hide ParametersOf, MediaFailure, Dirty, RootInside, Bounded, U64;
  }

  predicate BothValid(tx: Tx, b: Boots) {
    ValidCopy(b.main.head, tx.restMain, b.main.sum) && ValidCopy(b.backup.head, tx.restBackup, b.backup.sum)
  }

  /** What a commit checks of the target before it writes: the main copy's sector 0, then both copies. */
  predicate Accepts(tx: Tx, b: Boots) {
    OpensTo(tx, b.main.head) && BothValid(tx, b)
  }

  predicate TxOk(tx: Tx) {
    && tx.b.Valid() && tx.b.End() <= |tx.stage| && tx.b.bootLength <= |tx.stage|
    && Accepts(tx, tx.found) && !Dirty(tx.found.main.head) && Accepts(tx, tx.clean)
    && |tx.clean.backup.head| >= MIN_SECTOR && |tx.clean.main.sum| % 4 == 0 && |tx.clean.backup.sum| % 4 == 0
  }

  /** The dirty copies are valid, and do not open: they name a root outside the heap. */
  lemma DirtyIsValid(tx: Tx)
    requires TxOk(tx)
    ensures BothValid(tx, DirtyBoots(tx)) && !OpensTo(tx, DirtyBoots(tx).main.head)
    ensures DirtyBoots(tx).main.head != tx.found.main.head && DirtyBoots(tx).main.head != tx.clean.main.head
  {
    hide ValidCopy, BootHead, SumSector, HeadSum, ParametersOf, MediaFailure, RootInside, Bounded, U64;
    DirtyCopyValid(tx.clean.main, tx.restMain, tx.percent);
    DirtyCopyValid(tx.clean.backup, tx.restBackup, tx.percent);
    RootsInside(DirtyBoots(tx).main.head);
  }

  lemma DirtyCopyValid(c: Copy, rest: seq<byte>, percent: byte)
    requires ValidCopy(c.head, rest, c.sum) && |c.sum| % 4 == 0
    ensures var d := DirtyCopy(c, rest, percent); ValidCopy(d.head, rest, d.sum) && RootOf(d.head) == UNPLANNED
  {
    hide BootHead, SumSector, HeadSum;
    BootStateValid(c.head, rest, UNPLANNED, true, percent, |c.sum|);
    BootHeadFields(c.head, UNPLANNED, true, percent);
  }

  // ---- the target -------------------------------------------------------------------------------

  /** The target: its bytes and what a crash can leave of each, its boot sectors likewise, and the durable offset. */
  datatype Target = Target(bytes: seq<byte>, maybe: seq<set<byte>>, boots: Boots, options: Options, saved: nat)

  datatype Step = Put(at: nat, data: seq<byte>) | Publish(boots: Boots) | Flush | Save(upto: nat)

  function Written(bytes: seq<byte>, at: nat, data: seq<byte>): (r: seq<byte>)
    requires at + |data| <= |bytes|
    ensures |r| == |bytes|
    ensures forall o | 0 <= o < |bytes| :: r[o] == if at <= o < at + |data| then data[o - at] else bytes[o]
  {
    bytes[..at] + data + bytes[at + |data|..]
  }

  function Unsure(maybe: seq<set<byte>>, at: nat, data: seq<byte>): (r: seq<set<byte>>)
    requires at + |data| <= |maybe|
    ensures |r| == |maybe|
    ensures forall o | 0 <= o < |maybe| :: r[o] == if at <= o < at + |data| then maybe[o] + {data[o - at]} else maybe[o]
  {
    seq(|maybe|, o requires 0 <= o < |maybe| => if at <= o < at + |data| then maybe[o] + {data[o - at]} else maybe[o])
  }

  function Sure(bytes: seq<byte>): (r: seq<set<byte>>)
    ensures |r| == |bytes| && forall o | 0 <= o < |bytes| :: r[o] == {bytes[o]}
  {
    seq(|bytes|, o requires 0 <= o < |bytes| => {bytes[o]})
  }

  function Apply(t: Target, s: Step): Target {
    match s
    case Put(at, data) =>
      if at + |data| <= |t.bytes| == |t.maybe|
          then t.(bytes := Written(t.bytes, at, data), maybe := Unsure(t.maybe, at, data)) else t
    case Publish(boots) => t.(boots := boots, options := t.options.With(boots))
    case Flush => t.(maybe := Sure(t.bytes), options := Only(t.boots))
    case Save(upto) => t.(saved := upto)
  }

  function Run(t: Target, steps: seq<Step>): Target {
    if steps == [] then t else Apply(Run(t, steps[..|steps| - 1]), steps[|steps| - 1])
  }

  function Settled(bytes: seq<byte>, boots: Boots, saved: nat): Target {
    Target(bytes, Sure(bytes), boots, Only(boots), saved)
  }

  /** All body bytes below an offset are certainly the stage's. */
  ghost predicate SureBelow(tx: Tx, t: Target, upto: nat) {
    forall o | 0 <= o < |t.maybe| && o < |tx.stage| && o < upto && InRanges(Ranges(tx.b), o) ::
          t.maybe[o] == {tx.stage[o]}
  }

  /** What the commit may do: copy the stage, publish dirty or clean boot copies, flush, and save an offset below which
      everything is certain. */
  ghost predicate Lawful(tx: Tx, t: Target, s: Step)
    requires TxOk(tx)
  {
    match s
    case Put(at, data) =>
      tx.b.bootLength <= at && at + |data| <= |t.bytes| == |tx.stage| && data == tx.stage[at..at + |data|]
    case Publish(boots) => boots == DirtyBoots(tx) || boots == tx.clean
    case Flush => true
    case Save(upto) => SureBelow(tx, t, upto)
  }

  ghost predicate LawfulRun(tx: Tx, t: Target, steps: seq<Step>)
    requires TxOk(tx)
  {
    forall k | 0 <= k < |steps| :: Lawful(tx, Run(t, steps[..k]), steps[k])
  }

  /** Everything in the body below the saved offset is durable. */
  ghost predicate Held(tx: Tx, t: Target) {
    && |t.bytes| == |t.maybe| == |tx.stage|
    && (forall o | 0 <= o < |t.bytes| :: t.bytes[o] in t.maybe[o])
    && SureBelow(tx, t, t.saved) && t.options.Has(t.boots)
  }

  lemma StepHeld(tx: Tx, t: Target, s: Step)
    requires TxOk(tx) && Held(tx, t) && Lawful(tx, t, s)
    ensures Held(tx, Apply(t, s))
  {
    hide InRanges, Ranges, Accepts;
  }

  lemma {:induction false} RunHeld(tx: Tx, t: Target, steps: seq<Step>)
    requires TxOk(tx) && Held(tx, t) && LawfulRun(tx, t, steps)
    ensures Held(tx, Run(t, steps))
  {
    hide TxOk, Held, Lawful, Apply;
    if steps != [] {
      LawfulPrefix(tx, t, steps, |steps| - 1);
      RunHeld(tx, t, steps[..|steps| - 1]);
      StepHeld(tx, Run(t, steps[..|steps| - 1]), steps[|steps| - 1]);
    }
  }

  lemma LawfulPrefix(tx: Tx, t: Target, steps: seq<Step>, k: nat)
    requires TxOk(tx) && LawfulRun(tx, t, steps) && k <= |steps|
    ensures LawfulRun(tx, t, steps[..k])
  {
    hide TxOk, Lawful, Run;
    assert forall i | 0 <= i < k :: steps[..k][..i] == steps[..i];
  }

  lemma LawfulMore(tx: Tx, t: Target, steps: seq<Step>, s: Step)
    requires TxOk(tx) && LawfulRun(tx, t, steps) && Lawful(tx, Run(t, steps), s)
    ensures LawfulRun(tx, t, steps + [s]) && Run(t, steps + [s]) == Apply(Run(t, steps), s)
  {
    hide TxOk, Lawful, Apply;
    var more := steps + [s];
    assert more[..|steps|] == steps;
    forall k | 0 <= k < |more| ensures Lawful(tx, Run(t, more[..k]), more[k]) {
      if k < |steps| {
        assert more[..k] == steps[..k];
      }
    }
  }

  // ---- crashes ----------------------------------------------------------------------------------

  /** Every byte, and every boot sector, is one of its possibilities; the journal is what was last saved. */
  ghost predicate CrashOf(t: Target, after: Target) {
    && after == Settled(after.bytes, after.boots, t.saved)
    && |after.bytes| == |t.maybe| && (forall o | 0 <= o < |after.bytes| :: after.bytes[o] in t.maybe[o])
    && t.options.Has(after.boots)
  }

  /** The body below the journaled offset is the stage's, whatever the crash kept. */
  lemma CrashHeld(tx: Tx, t: Target, after: Target)
    requires Held(tx, t) && CrashOf(t, after)
    ensures Held(tx, after)
  {
    hide InRanges, Ranges;
    forall o | 0 <= o < |after.maybe| && o < |tx.stage| && o < after.saved && InRanges(Ranges(tx.b), o)
      ensures after.maybe[o] == {tx.stage[o]}
    {
      assert after.bytes[o] in t.maybe[o];
    }
  }

  /** The target as the commit finds it, its journal saying that nothing of the body is done. */
  predicate Begins(tx: Tx, t: Target) {
    t == Settled(t.bytes, tx.found, tx.b.bootLength) && |t.bytes| == |tx.stage|
  }

  lemma BeginHeld(tx: Tx, t: Target)
    requires TxOk(tx) && Begins(tx, t)
    ensures Held(tx, t)
  {
    hide InRanges, Accepts;
    RangesAscend(tx.b);
    forall o | 0 <= o < tx.b.bootLength ensures !InRanges(Ranges(tx.b), o) {
      OutsideBoot(tx.b, o);
    }
  }

  lemma OutsideBoot(b: ExfatRedo.Body, o: nat)
    requires b.Valid() && o < b.bootLength
    ensures !InRanges(Ranges(b), o)
  {
    RangesAscend(b);
  }

  // ---- the course of a commit -------------------------------------------------------------------

  predicate NoPublish(body: seq<Step>) {
    forall i | 0 <= i < |body| :: !body[i].Publish?
  }

  /** Dirty boot copies, flushed; the body; clean boot copies, flushed; the journal's last word. */
  function Course(tx: Tx, body: seq<Step>): seq<Step>
    requires TxOk(tx)
  {
    [Publish(DirtyBoots(tx)), Flush] + body + [Publish(tx.clean), Flush, Save(|tx.stage|)]
  }

  /** A commit as far as it got. */
  predicate OnCourse(tx: Tx, steps: seq<Step>, body: seq<Step>)
    requires TxOk(tx)
  {
    NoPublish(body) && steps <= Course(tx, body)
  }

  /** What can be in the boot sectors after so many steps. */
  function OptionsAfter(tx: Tx, start: Options, body: nat, k: nat): Options
    requires TxOk(tx)
  {
    if k == 0 then start
    else if k == 1 then start.With(DirtyBoots(tx))
    else if k <= 2 + body then Only(DirtyBoots(tx))
    else if k == 3 + body then Only(DirtyBoots(tx)).With(tx.clean)
    else Only(tx.clean)
  }

  lemma {:induction false} OptionsAlong(tx: Tx, t: Target, steps: seq<Step>, body: seq<Step>)
    requires TxOk(tx) && OnCourse(tx, steps, body)
    ensures Run(t, steps).options == OptionsAfter(tx, t.options, |body|, |steps|)
    ensures |steps| > 0 ==> Run(t, steps).boots == if |steps| <= 2 + |body| then DirtyBoots(tx) else tx.clean
    ensures steps == [] ==> Run(t, steps).boots == t.boots
  {
    hide TxOk, DirtyBoots, Written, Unsure, Sure;
    if steps != [] {
      var front := steps[..|steps| - 1];
      OptionsAlong(tx, t, front, body);
      var k := |steps| - 1;
      var all := Course(tx, body);
      assert steps[k] == all[k];
      assert 2 <= k < 2 + |body| ==> all[k] == body[k - 2];
    }
  }

  /** t is what n crashed commits leave: each opened what the crash before it had left, and got
      somewhere on its course. */
  ghost predicate Reached(tx: Tx, n: nat, t: Target)
    requires TxOk(tx)
  {
    if n == 0 then Begins(tx, t)
    else exists prev, steps, body ::
          Reached(tx, n - 1, prev) && Attempt(tx, prev, steps, body) && CrashOf(Run(prev, steps), t)
  }

  /** A commit, first or resumed, that opened the target and went along its course. */
  ghost predicate Attempt(tx: Tx, prev: Target, steps: seq<Step>, body: seq<Step>)
    requires TxOk(tx)
  {
    Accepts(tx, prev.boots) && OnCourse(tx, steps, body) && LawfulRun(tx, prev, steps)
  }

  /** The four sectors each come from the copies found, the dirty ones or the clean ones. */
  predicate KnownHead(tx: Tx, head: seq<byte>)
    requires TxOk(tx)
  {
    head == tx.found.main.head || head == DirtyBoots(tx).main.head || head == tx.clean.main.head
  }

  /** Over any number of crashes and resumptions the body below the journaled offset is the stage's, durably. */
  lemma {:induction false} ReachedHeld(tx: Tx, n: nat, t: Target)
    requires TxOk(tx) && Reached(tx, n, t)
    ensures Held(tx, t) && KnownHead(tx, t.boots.main.head) && t.options == Only(t.boots)
  {
    hide TxOk, Held, Accepts, LawfulRun, Run, DirtyBoots;
    if n == 0 {
      BeginHeld(tx, t);
    } else {
      var prev, steps, body :| Reached(tx, n - 1, prev) && Attempt(tx, prev, steps, body)
          && CrashOf(Run(prev, steps), t);
      ReachedHeld(tx, n - 1, prev);
      RunHeld(tx, prev, steps);
      CrashHeld(tx, Run(prev, steps), t);
      OptionsAlong(tx, prev, steps, body);
    }
  }

  /** A resumed commit opens what a crash left exactly when sector 0 of the main copy is not the dirty one and both
      copies are whole. */
  lemma ResumesExactly(tx: Tx, n: nat, t: Target)
    requires TxOk(tx) && Reached(tx, n, t)
    ensures Accepts(tx, t.boots) <==> t.boots.main.head != DirtyBoots(tx).main.head && BothValid(tx, t.boots)
  {
    hide Reached, ValidCopy, DirtyBoots, Held;
    ReachedHeld(tx, n, t);
    DirtyIsValid(tx);
  }

  /** So every crash between the flush of the dirty copies and the publication of the clean ones leaves a target that
      cannot be resumed, however much of the body the journal records. */
  lemma StuckWhileDirty(tx: Tx, n: nat, prev: Target, steps: seq<Step>, body: seq<Step>, t: Target)
    requires TxOk(tx) && Reached(tx, n, prev) && Attempt(tx, prev, steps, body) && CrashOf(Run(prev, steps), t)
    requires 2 <= |steps| <= 2 + |body|
    ensures Reached(tx, n + 1, t) && t.boots == DirtyBoots(tx) && !Accepts(tx, t.boots)
  {
    hide LawfulRun, DirtyBoots, Run, Begins, OpensTo, BothValid, Settled, Course;
    OptionsAlong(tx, prev, steps, body);
    DirtyIsValid(tx);
  }

  /** The failure is real: the very first commit that crashes once its dirty copies are flushed is stuck. */
  lemma FirstCrashSticks(tx: Tx, start: Target) returns (t: Target)
    requires TxOk(tx) && Begins(tx, start)
    ensures Reached(tx, 1, t) && !Accepts(tx, t.boots)
  {
    hide DirtyBoots, Accepts;
    var steps := [Publish(DirtyBoots(tx)), Flush];
    FoundAccepted(tx);
    assert steps == Course(tx, [])[..2];
    assert steps[..0] == [] && steps[..1] == [steps[0]];
    assert LawfulRun(tx, start, steps);
    var r := Run(start, steps);
    OptionsAlong(tx, start, steps, []);
    t := Settled(start.bytes, DirtyBoots(tx), r.saved);
    FlushedBytes(start, DirtyBoots(tx));
    assert Reached(tx, 0, start) && Attempt(tx, start, steps, []);
    StuckWhileDirty(tx, 0, start, steps, [], t);
  }

  lemma FoundAccepted(tx: Tx)
    requires TxOk(tx)
    ensures Accepts(tx, tx.found)
  {
  }

  lemma FlushedBytes(start: Target, boots: Boots)
    ensures Run(start, [Publish(boots), Flush]).maybe == Sure(start.bytes)
    ensures Run(start, [Publish(boots), Flush]).saved == start.saved
  {
    hide Sure, Written, Unsure;
    var steps := [Publish(boots), Flush];
    var one := [Publish(boots)];
    assert steps[..1] == one && one[..0] == [];
    assert Run(start, one) == Apply(start, Publish(boots));
  }

  /** Outside that stretch a crash can leave a torn copy at worst: before the flush of the dirty copies, and while the
      clean ones are written; with the clean ones flushed the target always opens. */
  lemma OpensWhenClean(tx: Tx, n: nat, prev: Target, steps: seq<Step>, body: seq<Step>, t: Target)
    requires TxOk(tx) && Reached(tx, n, prev) && Attempt(tx, prev, steps, body) && CrashOf(Run(prev, steps), t)
    requires |steps| >= 4 + |body|
    ensures t.boots == tx.clean && Accepts(tx, t.boots)
  {
    hide LawfulRun, DirtyBoots, Run, Reached, OpensTo, BothValid, Settled, Course;
    OptionsAlong(tx, prev, steps, body);
  }

  /** Whichever attempt completes its course, after however many crashes, leaves the stage's FAT and allocated runs and
      the clean boot copies, durably, and the journal saying so. */
  lemma CompletedIsStaged(tx: Tx, n: nat, prev: Target, body: seq<Step>)
    requires TxOk(tx) && Reached(tx, n, prev) && Attempt(tx, prev, Course(tx, body), body)
    ensures var r := Run(prev, Course(tx, body));
            && |r.bytes| == |r.maybe| == |tx.stage| && r.saved == |tx.stage| && r.options == Only(tx.clean)
            && forall o | 0 <= o < |r.bytes| && InRanges(Ranges(tx.b), o) ::
                 r.bytes[o] == tx.stage[o]
                 && r.maybe[o] == {tx.stage[o]}
  {
    hide TxOk, Reached, Accepts, DirtyBoots, InRanges, Ranges;
    var all := Course(tx, body);
    var last := |all| - 1;
    ReachedHeld(tx, n, prev);
    RunHeld(tx, prev, all);
    OptionsAlong(tx, prev, all, body);
    assert all[last] == Save(|tx.stage|) && Lawful(tx, Run(prev, all[..last]), all[last]);
    var r := Run(prev, all);
    assert r == Apply(Run(prev, all[..last]), Save(|tx.stage|));
    forall o | 0 <= o < |r.bytes| && InRanges(Ranges(tx.b), o)
      ensures r.bytes[o] == tx.stage[o] && r.maybe[o] == {tx.stage[o]} {
      assert r.bytes[o] in r.maybe[o];
    }
  }
}
