/** The redo commit at work: dirty boot copies, the FAT and every allocated run in chunks with the journal following,
    then the clean boot copies. */
module ExfatCommit {
  import opened Bytes
  import opened ExfatBoot
  import opened ExfatOpen
  import opened ExfatRedo
  import opened ExfatResume
  import Wrappers

  /** The target being committed. Everything it does is logged, and the log says what a crash can leave. */
  class Commit {
    const tx: Tx
    const b: Body
    const stage: seq<byte>
    var bytes: seq<byte>
    var boots: Boots
    var saved: nat
    var completed: nat
    var unsaved: nat
    ghost const start: Target
    ghost var log: seq<Step>

    /** What is on the target, and what a crash now could leave of it. */
    ghost function Now(): Target
      reads this
    {
      Run(start, log)
    }

    ghost predicate Valid()
      reads this
    {
      && TxOk(tx) && b == tx.b && stage == tx.stage
      && LawfulRun(tx, start, log) && Held(tx, Now())
      && bytes == Now().bytes && boots == Now().boots && saved == Now().saved
    }

    /** A target as a crash, or nothing yet, has left it. */
    constructor (tx: Tx, bytes: seq<byte>, boots: Boots, saved: nat)
      requires TxOk(tx) && Held(tx, Settled(bytes, boots, saved))
      ensures Valid() && this.tx == tx && start == Settled(bytes, boots, saved) && log == []
      ensures this.bytes == bytes && this.boots == boots && this.saved == saved && completed == 0
    {
      this.tx, this.b, this.stage := tx, tx.b, tx.stage;
      this.bytes, this.boots, this.saved := bytes, boots, saved;
      completed, unsaved := 0, 0;
      start, log := Settled(bytes, boots, saved), [];
    }

    /** Opening the target: sector 0 of the main copy, the journal's volume and the stage's geometry,
        then both copies. */
    method Open(recovery: bool) returns (accepted: bool)
      requires Valid() && |boots.main.head| >= MIN_SECTOR && |boots.backup.head| >= MIN_SECTOR
      requires |boots.main.sum| % 4 == 0 && |boots.backup.sum| % 4 == 0
      ensures accepted == (Accepts(tx, boots) && (recovery || !Dirty(boots.main.head)))
    {
      hide OpenSector, Dirty, TxOk, LawfulRun, Held, ValidCopy;
      OpensForExactly(tx, boots.main.head, recovery);
      var found := OpenSector(boots.main.head, tx.device, recovery);
      if found != Wrappers.Ok(tx.params) {
        return false;
      }
      accepted := RegionValid(boots.main.head, tx.restMain, boots.main.sum);
      if accepted {
        accepted := RegionValid(boots.backup.head, tx.restBackup, boots.backup.sum);
      }
    }

    // ---- steps --------------------------------------------------------------------------------

    method PutChunk(at: nat, n: nat)
      requires Valid() && b.bootLength <= at && at + n <= |stage|
      modifies this`bytes, this`log
      ensures Valid() && log == old(log) + [Put(at, stage[at..at + n])]
      ensures forall o | 0 <= o < |bytes| :: bytes[o] == if at <= o < at + n then stage[o] else old(bytes[o])
      ensures |bytes| == old(|bytes|)
    {
      hide TxOk, Accepts, SureBelow, Run;
      ghost var s := Put(at, stage[at..at + n]);
      LawfulMore(tx, start, log, s);
      StepHeld(tx, Now(), s);
      bytes := Written(bytes, at, stage[at..at + n]);
      log := log + [s];
    }

    method PublishBoots(copies: Boots)
      requires Valid() && (copies == DirtyBoots(tx) || copies == tx.clean)
      modifies this`boots, this`log
      ensures Valid() && boots == copies && log == old(log) + [Publish(copies)]
    {
      hide TxOk, Accepts, SureBelow, Run, DirtyBoots;
      LawfulMore(tx, start, log, Publish(copies));
      StepHeld(tx, Now(), Publish(copies));
      boots := copies;
      log := log + [Publish(copies)];
    }

    method Fsync()
      requires Valid()
      modifies this`log
      ensures Valid() && log == old(log) + [Flush]
      ensures Now().maybe == Sure(bytes) && Now().options == Only(boots)
    {
      hide TxOk, Accepts, SureBelow, Run;
      LawfulMore(tx, start, log, Flush);
      StepHeld(tx, Now(), Flush);
      log := log + [Flush];
    }

    method SaveJournal(upto: nat)
      requires Valid() && SureBelow(tx, Now(), upto)
      modifies this`saved, this`log
      ensures Valid() && saved == upto && log == old(log) + [Save(upto)]
      ensures Now() == old(Now()).(saved := upto)
    {
      hide TxOk, Accepts, SureBelow, Run;
      LawfulMore(tx, start, log, Save(upto));
      StepHeld(tx, Now(), Save(upto));
      saved := upto;
      log := log + [Save(upto)];
    }

    // ---- progress -----------------------------------------------------------------------------

    /** All body bytes below an offset read as staged. */
    ghost predicate Done(upto: nat)
      reads this
    {
      forall o | 0 <= o < |bytes| && o < |stage| && o < upto && InRanges(Ranges(b), o) :: bytes[o] == stage[o]
    }

    lemma StillDone(was: seq<byte>, position: nat, chunk: nat)
      requires |was| == |bytes|
      requires forall o | 0 <= o < |bytes| && o < |stage| && o < position && InRanges(Ranges(b), o) ::
                 was[o] == stage[o]
      requires forall o | 0 <= o < |bytes|
               && o < |stage| :: bytes[o] == if position <= o < position + chunk then stage[o] else was[o]
      ensures Done(position + chunk)
    {
      hide InRanges, Ranges;
    }

    lemma DoneIsSure(upto: nat)
      requires Valid() && Done(upto) && Now().maybe == Sure(bytes)
      ensures SureBelow(tx, Now(), upto)
    {
      hide InRanges, Ranges, TxOk, LawfulRun, Run;
    }

    /** No boot copy has been published since a point of the log. */
    ghost predicate BodyOnly(since: nat)
      reads this
    {
      since <= |log| && NoPublish(log[since..])
    }

    /** One chunk, and the journal when enough has been written since it was last saved. */
    method CommitChunk(position: nat, chunk: nat, interval: nat, ghost since: nat)
      requires Valid() && b.bootLength <= position && position + chunk <= |stage| && Done(position) && BodyOnly(since)
      modifies this`bytes, this`log, this`saved, this`completed, this`unsaved
      ensures Valid() && Done(position + chunk) && BodyOnly(since) && log[..since] == old(log[..since])
      ensures completed == old(completed) + chunk && |bytes| == old(|bytes|)
      ensures forall o | 0 <= o < |bytes| ::
                bytes[o] == if position <= o < position + chunk then stage[o] else old(bytes[o])
    {
      hide TxOk, InRanges, Ranges, LawfulRun, Run, SureBelow;
      ghost var was := bytes;
      PutChunk(position, chunk);
      HeldSizes();
      StillDone(was, position, chunk);
      completed := completed + chunk;
      unsaved := unsaved + chunk;
      if unsaved >= interval {
        Fsync();
        DoneIsSure(position + chunk);
        SaveJournal(position + chunk);
        unsaved := 0;
      }
    }

    lemma HeldSizes()
      requires Valid()
      ensures |bytes| == |stage| && b.Valid() && b.End() <= |stage| && b.bootLength <= |stage|
    {
      hide Accepts, SureBelow, LawfulRun, Run;
    }

    /** One range, from the resume offset on. */
    method CommitOneRange(ghost i: nat, from: nat, end: nat, resume: nat, chunkSize: nat, interval: nat,
        ghost since: nat)
      requires Valid() && i < |Ranges(b)| && Ranges(b)[i] == Range(from, end) && chunkSize > 0 && BodyOnly(since)
      requires Done(from) && (resume > from ==> Done(resume)) && b.bootLength <= from && end <= |stage|
      modifies this`bytes, this`log, this`saved, this`completed, this`unsaved
      ensures Valid() && Done(end) && BodyOnly(since) && log[..since] == old(log[..since]) && |bytes| == old(|bytes|)
      ensures completed + Below(Range(from, end), resume) == old(completed) + (if from < end then end - from else 0)
      ensures forall o | 0 <= o < |bytes| && !Inside(Range(from, end), o) :: bytes[o] == old(bytes[o])
    {
      hide Valid, InRanges, Ranges;
      if end <= resume || end <= from {
        DoneEarlier(from, end, resume);
        return;
      }
      var offset := if from < resume then resume else from;
      ghost var first := offset;
      while offset < end
        invariant Valid() && first <= offset <= end && Done(offset) && BodyOnly(since)
                  && log[..since] == old(log[..since])
        invariant completed == old(completed) + (offset - first) && |bytes| == old(|bytes|)
        invariant forall o | 0 <= o < |bytes| && !Inside(Range(from, end), o) :: bytes[o] == old(bytes[o])
      {
        var chunk := if end - offset < chunkSize then end - offset else chunkSize;
        CommitChunk(offset, chunk, interval, since);
        offset := offset + chunk;
      }
    }

    lemma DoneEarlier(from: nat, end: nat, resume: nat)
      requires end <= resume || end <= from
      requires Done(from) && (resume > from ==> Done(resume))
      ensures Done(end)
    {
      hide InRanges, Ranges;
    }

    /** Everything between two consecutive ranges is done with the first of them. */
    lemma NextRange(i: nat)
      requires b.Valid() && i < |Ranges(b)| && Done(Ranges(b)[i].end)
      ensures i + 1 < |Ranges(b)| ==> Done(Ranges(b)[i + 1].start)
      ensures i + 1 == |Ranges(b)| ==> Done(|bytes|)
    {
      hide Ranges, InRanges;
      forall o | 0 <= o < |bytes| && o < |stage| && InRanges(Ranges(b), o)
          && (i + 1 < |Ranges(b)| ==> o < Ranges(b)[i + 1].start)
        ensures o < Ranges(b)[i].end
      {
        NothingBetween(b, i, o);
      }
    }

    // ---- the whole commit ---------------------------------------------------------------------

    /** One allocated run, the next of the ranges. */
    method CommitRun(ghost rs: seq<Range>, ghost i: nat, first: nat, resume: nat, chunkSize: nat, interval: nat,
        ghost since: nat)
        returns (cluster: nat)
      requires Valid() && chunkSize > 0 && rs == Ranges(b) && i < |rs| && first < |b.alloc| && b.alloc[first]
               && rs[i..] == RunsFrom(b, first)
      requires Done(resume) && Done(rs[i].start) && BodyOnly(since)
      modifies this`bytes, this`log, this`saved, this`completed, this`unsaved
      ensures Valid() && first < cluster <= |b.alloc| && rs[i + 1..] == RunsFrom(b, cluster) && |bytes| == old(|bytes|)
      ensures Done(resume) && Done(if i + 1 < |rs| then rs[i + 1].start else |bytes|)
      ensures BodyOnly(since) && log[..since] == old(log[..since])
      ensures completed + Length(rs[i + 1..]) + Before(rs[i..], resume)
              == old(completed) + Length(rs[i..]) + Before(rs[i + 1..], resume)
      ensures forall o | 0 <= o < |bytes| && !Inside(rs[i], o) :: bytes[o] == old(bytes[o])
    {
      hide Before, Length, InRanges, RunsFrom, Ascending, Ranges, Valid, Below;
      HeldSizes();
      cluster := NextFree(b, first);
      RunsStep(b, first);
      TailStep(rs, i, resume);
      OffsetsGrow(b, first, cluster);
      RangesInside(b, i);
      assert rs[i] == rs[i..][0] && rs[i..][1..] == rs[i + 1..];
      ghost var was := bytes;
      CommitOneRange(i, b.Offset(first), b.Offset(cluster), resume, chunkSize, interval, since);
      DoneKept(was, rs, i, resume);
      NextRange(i);
    }

    /** Done parts stay done: a range only ever receives staged bytes. */
    lemma DoneKept(was: seq<byte>, rs: seq<Range>, i: nat, resume: nat)
      requires |was| == |bytes| && rs == Ranges(b) && i < |rs| && Done(rs[i].end)
      requires forall o | 0 <= o < |bytes| && o < |stage| && o < resume && InRanges(Ranges(b), o) :: was[o] == stage[o]
      requires forall o | 0 <= o < |bytes| && !Inside(rs[i], o) :: bytes[o] == was[o]
      ensures Done(resume)
    {
      hide InRanges, Ranges;
    }

    /** The FAT range, then every allocated run. */
    method CommitBody(resume: nat, chunkSize: nat, interval: nat, ghost since: nat)
      requires Valid() && chunkSize > 0 && Done(resume) && Done(b.fatOffset) && completed == Before(Ranges(b), resume)
               && BodyOnly(since)
      modifies this`bytes, this`log, this`saved, this`completed, this`unsaved
      ensures Valid() && Done(|bytes|) && completed == Length(Ranges(b)) && |bytes| == old(|bytes|)
      ensures BodyOnly(since) && log[..since] == old(log[..since])
      ensures forall o | 0 <= o < |bytes| && !InRanges(Ranges(b), o) :: bytes[o] == old(bytes[o])
    {
      hide Before, Length, InRanges, RunsFrom, Ascending, Valid, Below, Ranges;
      HeldSizes();
      ghost var rs := Ranges(b);
      FirstRange(b, resume);
      RangesInside(b, 0);
      ghost var was := bytes;
      CommitOneRange(0, b.fatOffset, b.fatOffset + b.fatLength, resume, chunkSize, interval, since);
      DoneKept(was, rs, 0, resume);
      InsideIsIn(rs, 0);
      NextRange(0);
      TailStep(rs, 0, resume);
      assert rs[0..] == rs;
      ghost var i := 1;
      var cluster := 0;
      while cluster < |b.alloc|
        invariant Valid() && 1 <= i <= |rs| && cluster <= |b.alloc| && rs[i..] == RunsFrom(b, cluster)
                  && |bytes| == old(|bytes|)
        invariant Done(resume) && Done(if i < |rs| then rs[i].start else |bytes|)
        invariant BodyOnly(since) && log[..since] == old(log[..since])
        invariant completed + Length(rs[i..]) == Length(rs) + Before(rs[i..], resume)
        invariant forall o | 0 <= o < |bytes| && !InRanges(rs, o) :: bytes[o] == old(bytes[o])
      {
        RunsStep(b, cluster);
        if !b.alloc[cluster] {
          cluster := cluster + 1;
          continue;
        }
        RunLeft(rs, i);
        cluster := CommitRun(rs, i, cluster, resume, chunkSize, interval, since);
        InsideIsIn(rs, i);
        i := i + 1;
      }
      NoRunsLeft(b, rs, i, resume);
    }

    /** The commit, first or resumed from the journaled offset. Refused, it changes nothing. Otherwise afterwards the
        FAT and every allocated run are the stage's and the boot copies are clean, durably; the bytes counted as
        committed before plus those written now are all of the body; nothing else has changed; and the log is a
        complete course. */
    method CommitStage(recovery: bool, chunkSize: nat, interval: nat) returns (accepted: bool, before: nat, total: nat)
      requires Valid() && chunkSize > 0 && completed == 0 && log == []
      requires |boots.main.head| >= MIN_SECTOR && |boots.backup.head| >= MIN_SECTOR
      requires |boots.main.sum| % 4 == 0 && |boots.backup.sum| % 4 == 0
      modifies this`bytes, this`boots, this`log, this`saved, this`completed, this`unsaved
      ensures Valid() && accepted == (Accepts(tx, old(boots)) && (recovery || !Dirty(old(boots).main.head)))
      ensures !accepted ==> bytes == old(bytes) && boots == old(boots) && saved == old(saved) && log == []
      ensures accepted ==>
                && (forall o | 0 <= o < |bytes| && InRanges(Ranges(b), o) ::
                     bytes[o] == stage[o] && Now().maybe[o] == {stage[o]})
                && (forall o | 0 <= o < |bytes| && !InRanges(Ranges(b), o) ::
                     |bytes| == old(|bytes|)
                     && bytes[o] == old(bytes[o]))
                && boots == tx.clean && Now().options == Only(tx.clean) && saved == |stage|
                && total == b.fatLength + Count(b.alloc, 0) * b.clusterSize == Length(Ranges(b)) == completed
                && before == Before(Ranges(b), if old(saved) < b.bootLength then b.bootLength else old(saved))
                && exists body :: NoPublish(body) && log == Course(tx, body)
    {
      hide Before, Length, InRanges, RunsFrom, Ascending, Count, Ranges, TxOk, Accepts, DirtyBoots, Done, Held,
           LawfulRun, Run;
      before, total := 0, 0;
      accepted := Open(recovery);
      if !accepted {
        return;
      }
      var resume := if saved < b.bootLength then b.bootLength else saved;
      PublishDirty(resume);
      var n := AllocatedCount(b);
      total := b.fatLength + n * b.clusterSize;
      HeldSizes();
      TotalIsLength(b);
      before := CommittedBefore(b, resume);
      StartCounting(before, resume);
      CommitBody(resume, chunkSize, interval, 2);
      ghost var body := log[2..];
      PublishClean(chunkSize);
      assert log == [Publish(DirtyBoots(tx)), Flush] + (body + [Flush]) + [Publish(tx.clean), Flush, Save(|stage|)];
      assert log == Course(tx, body + [Flush]);
    }

    /** The dirty copies, flushed before anything else is written. */
    method PublishDirty(resume: nat)
      requires Valid() && log == [] && resume == if saved < b.bootLength then b.bootLength else saved
      modifies this`boots, this`log
      ensures Valid() && Done(resume) && Done(b.fatOffset)
      ensures log == [Publish(DirtyBoots(tx)), Flush]
    {
      hide InRanges, Ranges, TxOk, Accepts, DirtyBoots, LawfulRun, Held, Run;
      TxHolds();
      DoneFirst(resume);
      PublishBoots(DirtyBoots(tx));
      Fsync();
    }

    method StartCounting(before: nat, resume: nat)
      requires Valid() && Done(resume) && Done(b.fatOffset)
      modifies this`completed, this`unsaved
      ensures Valid() && Done(resume) && Done(b.fatOffset) && completed == before && unsaved == 0
    {
      hide InRanges, Ranges, TxOk, LawfulRun, Held, Run;
      completed, unsaved := before, 0;
    }

    /** Reads a region of the target and of the stage again, in chunks, up to the first difference. */
    method CompareRegion(from: nat, end: nat, chunkSize: nat) returns (same: bool)
      requires from <= end <= |bytes| == |stage| && chunkSize > 0
      ensures same == (bytes[from..end] == stage[from..end])
    {
      var offset := from;
      while offset < end
        invariant from <= offset <= end && bytes[from..offset] == stage[from..offset]
      {
        var next := if end - offset < chunkSize then end else offset + chunkSize;
        SlicesJoin(bytes, stage, from, offset, next, end);
        if bytes[offset..next] != stage[offset..next] {
          return false;
        }
        offset := next;
      }
      return true;
    }

    /** Reads the FAT and every allocated run again. */
    method VerifyRanges(chunkSize: nat) returns (same: bool)
      requires b.Valid() && b.End() <= |bytes| == |stage| && chunkSize > 0
      ensures same == forall o | 0 <= o < |bytes| && InRanges(Ranges(b), o) :: bytes[o] == stage[o]
    {
      hide InRanges, RunsFrom, Ascending, Ranges;
      ghost var rs := Ranges(b);
      FirstRange(b, 0);
      RangesAscend(b);
      same := CompareRegion(b.fatOffset, b.fatOffset + b.fatLength, chunkSize);
      assert rs[0] == b.FatRange();
      RangeSame(bytes, stage, rs, 0);
      if !same {
        return;
      }
      assert rs[1..] == RunsFrom(b, 0);
      ghost var i := 1;
      var cluster := 0;
      while cluster < |b.alloc|
        invariant cluster <= |b.alloc| && 1 <= i <= |rs| && rs[i..] == RunsFrom(b, cluster)
        invariant forall k | 0 <= k < i :: SameOn(bytes, stage, rs[k])
      {
        RunsStep(b, cluster);
        if !b.alloc[cluster] {
          cluster := cluster + 1;
          continue;
        }
        RunLeft(rs, i);
        var first := cluster;
        cluster := NextFree(b, first);
        OffsetsGrow(b, first, cluster);
        OffsetsGrow(b, cluster, |b.alloc|);
        assert rs[i] == rs[i..][0] && rs[i..][1..] == rs[i + 1..];
        same := CompareRegion(b.Offset(first), b.Offset(cluster), chunkSize);
        RangeSame(bytes, stage, rs, i);
        if !same {
          return;
        }
        i := i + 1;
      }
      NoRunsLeft(b, rs, i, 0);
      AllSame(bytes, stage, rs);
      same := true;
    }

    /** With the whole body written: flush it, compare it with the stage, publish the clean copies, flush them, and
        close the journal. */
    method PublishClean(chunkSize: nat)
      requires Valid() && Done(|bytes|) && chunkSize > 0
      modifies this`boots, this`log, this`saved
      ensures Valid() && boots == tx.clean && Now().options == Only(tx.clean) && saved == |stage|
      ensures log == old(log) + [Flush, Publish(tx.clean), Flush, Save(|stage|)]
      ensures forall o | 0 <= o < |bytes| && InRanges(Ranges(b), o) ::
                bytes[o] == stage[o] && Now().maybe[o] == {stage[o]}
    {
      hide InRanges, Ranges, TxOk, Accepts, DirtyBoots, LawfulRun, Run;
      HeldSizes();
      Fsync();
      var same := VerifyRanges(chunkSize);
      if !same {
        assert false;
      }
      PublishBoots(tx.clean);
      Fsync();
      DoneIsSure(|bytes|);
      SaveJournal(|stage|);
    }

    lemma TxHolds()
      requires Valid()
      ensures TxOk(tx)
    {
    }

    lemma DoneFirst(resume: nat)
      requires Valid() && resume == if saved < b.bootLength then b.bootLength else saved
      ensures Done(resume) && Done(b.fatOffset)
    {
      hide Ranges, InRanges, LawfulRun, Run, Accepts;
      HeldSizes();
      forall o | 0 <= o < |bytes| && InRanges(Ranges(b), o) ensures o >= b.fatOffset {
        BodyBehindBoot(b, o);
      }
      forall o | 0 <= o < |bytes| && o < |stage| && o < resume && InRanges(Ranges(b), o) ensures bytes[o] == stage[o] {
        assert bytes[o] in Now().maybe[o];
      }
    }

    lemma RunLeft(rs: seq<Range>, i: nat)
      requires i <= |rs| && rs[i..] != []
      ensures i < |rs|
    {
    }
  }

  lemma SlicesJoin(s: seq<byte>, t: seq<byte>, from: nat, mid: nat, next: nat, end: nat)
    requires from <= mid <= next <= end <= |s| == |t| && s[from..mid] == t[from..mid]
    ensures s[from..next] == t[from..next] <==> s[mid..next] == t[mid..next]
    ensures s[from..end] == t[from..end] ==> s[mid..next] == t[mid..next]
  {
    assert s[from..next] == s[from..mid] + s[mid..next] && t[from..next] == t[from..mid] + t[mid..next];
    if s[from..end] == t[from..end] {
      forall k | mid <= k < next ensures s[k] == t[k] {
        assert s[k] == s[from..end][k - from] && t[k] == t[from..end][k - from];
      }
    } else if s[from..next] == t[from..next] {
      forall k | mid <= k < next ensures s[k] == t[k] {
        assert s[k] == s[from..next][k - from] && t[k] == t[from..next][k - from];
      }
    }
  }

  predicate SameOn(s: seq<byte>, t: seq<byte>, r: Range) {
    forall o | 0 <= o < |s| && o < |t| && Inside(r, o) :: s[o] == t[o]
  }

  /** Equal slices are equal bytes; a difference in one range is one in the ranges. */
  lemma RangeSame(s: seq<byte>, t: seq<byte>, rs: seq<Range>, i: nat)
    requires |s| == |t| && i < |rs| && rs[i].start <= rs[i].end <= |s|
    ensures s[rs[i].start..rs[i].end] == t[rs[i].start..rs[i].end] <==> SameOn(s, t, rs[i])
    ensures !SameOn(s, t, rs[i]) ==> !forall o | 0 <= o < |s| && InRanges(rs, o) :: s[o] == t[o]
  {
    var a, z := rs[i].start, rs[i].end;
    if s[a..z] == t[a..z] {
      forall o | 0 <= o < |s| && Inside(rs[i], o) ensures s[o] == t[o] {
        assert s[o] == s[a..z][o - a] && t[o] == t[a..z][o - a];
      }
    }
    InsideIsIn(rs, i);
  }

  lemma AllSame(s: seq<byte>, t: seq<byte>, rs: seq<Range>)
    requires |s| == |t| && forall k | 0 <= k < |rs| :: SameOn(s, t, rs[k])
    ensures forall o | 0 <= o < |s| && InRanges(rs, o) :: s[o] == t[o]
  {
  }

  lemma NothingBetween(b: Body, i: nat, o: nat)
    requires b.Valid() && i < |Ranges(b)| && InRanges(Ranges(b), o)
             && (i + 1 < |Ranges(b)| ==> o < Ranges(b)[i + 1].start)
    ensures o < Ranges(b)[i].end
  {
    hide Ranges;
    RangesAscend(b);
    var k :| 0 <= k < |Ranges(b)| && Inside(Ranges(b)[k], o);
    assert k <= i;
  }

  lemma RangesInside(b: Body, i: nat)
    requires b.Valid() && i < |Ranges(b)|
    ensures b.bootLength <= Ranges(b)[i].start && Ranges(b)[i].end <= b.End()
  {
    hide Ranges;
    RangesAscend(b);
  }

  lemma BodyBehindBoot(b: Body, o: nat)
    requires b.Valid() && InRanges(Ranges(b), o)
    ensures o >= b.fatOffset
  {
    RangesAscend(b);
    FirstRange(b, 0);
    var k :| 0 <= k < |Ranges(b)| && Inside(Ranges(b)[k], o);
    assert k > 0 ==> Ranges(b)[0].end <= Ranges(b)[k].start;
  }
}
