/** The redo path as a whole: what a completed commit leaves on the target means what the scanned volume did. */
module ExfatRedone {
  import opened Bytes
  import opened ExfatVolume
  import opened ExfatScan
  import opened ExfatManifest
  import opened ExfatCanonical
  import opened ExfatMeaning
  import opened ExfatRelaid
  import opened ExfatPlan
  import opened ExfatBoot
  import opened ExfatOutcome
  import opened ExfatRedo
  import opened ExfatResume
  import opened ExfatStage

  // ---- volumes in bytes -------------------------------------------------------------------------

  function ClusterAt(b: Body, bytes: seq<byte>, c: nat): (r: seq<byte>)
    requires b.Valid() && b.End() <= |bytes| && 2 <= c < |b.alloc| + 2
    ensures |r| == b.clusterSize
  {
    OffsetsGrow(b, c - 2, c - 1);
    OffsetsGrow(b, c - 1, |b.alloc|);
    bytes[b.Offset(c - 2)..b.Offset(c - 1)]
  }

  /** What is opened in the bytes of a target or of a stage. */
  function VolumeAt(b: Body, bytes: seq<byte>, root: nat): Volume
    requires b.Valid() && b.End() <= |bytes|
  {
    OffsetsGrow(b, 0, |b.alloc|);
    Volume(b.clusterSize, |b.alloc|, bytes[b.fatOffset..b.fatOffset + b.fatLength], Heap(b, bytes), root)
  }

  function Heap(b: Body, bytes: seq<byte>): (r: seq<seq<byte>>)
    requires b.Valid() && b.End() <= |bytes|
    ensures |r| == |b.alloc| + 2 && forall c | 2 <= c < |r| :: r[c] == ClusterAt(b, bytes, c)
  {
    seq(|b.alloc| + 2, c requires 0 <= c < |b.alloc| + 2 => if c < 2 then [] else ClusterAt(b, bytes, c))
  }

  /** The commit's body has been copied. */
  predicate Copied(tx: Tx, bytes: seq<byte>) {
    |bytes| == |tx.stage| && forall o | 0 <= o < |bytes| && InRanges(Ranges(tx.b), o) :: bytes[o] == tx.stage[o]
  }

  /** The FAT and every allocated cluster are then those of the stage. */
  lemma CopiedVolume(tx: Tx, bytes: seq<byte>, root: nat)
    requires tx.b.Valid() && tx.b.End() <= |tx.stage| && Copied(tx, bytes)
    ensures var s, t := VolumeAt(tx.b, tx.stage, root), VolumeAt(tx.b, bytes, root);
            t.fat == s.fat && forall c | 2 <= c < |s.heap| && tx.b.alloc[c - 2] :: t.heap[c] == s.heap[c]
  {
    hide InRanges, Copied, ClusterAt;
    OffsetsGrow(tx.b, 0, |tx.b.alloc|);
    CopiedFat(tx, bytes);
    forall c | 2 <= c < |tx.b.alloc| + 2 && tx.b.alloc[c - 2]
      ensures ClusterAt(tx.b, bytes, c) == ClusterAt(tx.b, tx.stage, c) {
      CopiedCluster(tx, bytes, c);
    }
  }

  lemma CopiedFat(tx: Tx, bytes: seq<byte>)
    requires tx.b.Valid() && tx.b.End() <= |tx.stage| && Copied(tx, bytes)
    ensures |bytes| == |tx.stage| && tx.b.fatOffset + tx.b.fatLength <= |bytes|
    ensures bytes[tx.b.fatOffset..tx.b.fatOffset + tx.b.fatLength]
            == tx.stage[tx.b.fatOffset..tx.b.fatOffset + tx.b.fatLength]
  {
    hide RunsFrom;
    OffsetsGrow(tx.b, 0, |tx.b.alloc|);
    assert Ranges(tx.b)[0] == tx.b.FatRange();
    InsideIsIn(Ranges(tx.b), 0);
    forall o | tx.b.fatOffset <= o < tx.b.fatOffset + tx.b.fatLength ensures bytes[o] == tx.stage[o] {
      assert Inside(tx.b.FatRange(), o);
    }
  }

  lemma CopiedCluster(tx: Tx, bytes: seq<byte>, c: nat)
    requires tx.b.Valid() && tx.b.End() <= |tx.stage| && Copied(tx, bytes) && 2 <= c < |tx.b.alloc| + 2
             && tx.b.alloc[c - 2]
    ensures ClusterAt(tx.b, bytes, c) == ClusterAt(tx.b, tx.stage, c)
  {
    hide RunsFrom, InRanges;
    OffsetsGrow(tx.b, c - 2, c - 1);
    OffsetsGrow(tx.b, c - 1, |tx.b.alloc|);
    forall o | tx.b.Offset(c - 2) <= o < tx.b.Offset(c - 1) ensures bytes[o] == tx.stage[o] {
      RunsCover(tx.b, 0, c - 2, o);
      assert Ranges(tx.b)[1..] == RunsFrom(tx.b, 0);
      SplitFirst(Ranges(tx.b), o);
    }
  }

  // ---- meaning ----------------------------------------------------------------------------------

  /** Each commit scans the stage: it opens clean, and the allocated clusters are those of its bitmap. */
  ghost predicate StageScanned(tx: Tx, s: Volume, cat2: Catalogue) {
    && TxOk(tx) && |tx.clean.main.head| >= MIN_SECTOR && !Dirty(tx.clean.main.head)
    && s == VolumeAt(tx.b, tx.stage, RootOf(tx.clean.main.head)) && Scans(s, cat2)
    && forall c: nat | c < |tx.b.alloc| :: tx.b.alloc[c] <==> Allocated(cat2.bitmap, c + 2)
  }

  /** What holds the stage's FAT and allocated clusters under the stage's root is laid anew like the stage. */
  lemma CopiedIsRelaid(v: Volume, cat: Catalogue, targets: seq<nat>, m: seq<Record>, tx: Tx, s: Volume, cat2: Catalogue,
                       bytes: seq<byte>)
    requires Scans(v, cat) && RelaidVolume(v, s, cat, targets, m) && StageScanned(tx, s, cat2) && Copied(tx, bytes)
    ensures RelaidVolume(v, VolumeAt(tx.b, bytes, s.root), cat, targets, m)
  {
    hide *;
    var t := StageParts(tx, s, cat2, bytes);
    PlacedFacts(v, s, cat, targets, m);
    forall i | 0 <= i < |cat.objects| ensures SameRun(s.heap, t.heap, targets[i], |cat.objects[i].clusters|) {
      TargetsAllocated(v, s, cat, targets, m, cat2, i);
      RunCopied(tx, s, t, cat2, targets[i], |cat.objects[i].clusters|);
    }
    StillRelaid(v, s, t, cat, targets, m);
  }

  lemma StageParts(tx: Tx, s: Volume, cat2: Catalogue, bytes: seq<byte>) returns (t: Volume)
    requires StageScanned(tx, s, cat2) && Copied(tx, bytes)
    ensures tx.b.Valid() && tx.b.End() <= |bytes| && t == VolumeAt(tx.b, bytes, s.root)
    ensures Scans(s, cat2) && s.Valid() && t.Valid() && SameShape(s, t) && t.fat == s.fat && t.root == s.root
    ensures |t.heap| == |s.heap| == |tx.b.alloc| + 2
    ensures forall c | 2 <= c < |s.heap| && tx.b.alloc[c - 2] :: t.heap[c] == s.heap[c]
    ensures forall c: nat | c < |tx.b.alloc| :: tx.b.alloc[c] <==> Allocated(cat2.bitmap, c + 2)
  {
    hide ReadCatalogue, ExactOwnership, Allocated, Accepts, InRanges, Ranges, ClusterAt;
    t := VolumeAt(tx.b, bytes, s.root);
    CopiedVolume(tx, bytes, s.root);
  }

  /** The target runs are allocated in the stage's own bitmap. */
  lemma TargetsAllocated(v: Volume, s: Volume, cat: Catalogue, targets: seq<nat>, m: seq<Record>, cat2: Catalogue,
      i: nat)
    requires Scans(v, cat) && RelaidVolume(v, s, cat, targets, m) && Scans(s, cat2) && i < |cat.objects| == |targets|
    ensures forall c: nat | targets[i] <= c < targets[i] + |cat.objects[i].clusters| :: Allocated(cat2.bitmap, c)
  {
    hide RelaidVolume, ReadCatalogue, Allocated, ExpectedBitmap;
    var again := MeaningPreserved(v, s, cat, targets, m);
    assert again == cat2;
    forall c: nat | targets[i] <= c < targets[i] + |cat.objects[i].clusters| ensures Allocated(cat2.bitmap, c) {
      assert cat2.objects[i] == Moved(cat.objects[i], targets[i]);
      assert cat2.objects[i].clusters[c - targets[i]] == c;
      assert Owns(cat2.objects, i, c);
    }
  }

  lemma RunCopied(tx: Tx, s: Volume, t: Volume, cat2: Catalogue, start: nat, n: nat)
    requires |t.heap| == |s.heap| == |tx.b.alloc| + 2 && 2 <= start
    requires forall c | 2 <= c < |s.heap| && tx.b.alloc[c - 2] :: t.heap[c] == s.heap[c]
    requires forall c: nat | c < |tx.b.alloc| :: tx.b.alloc[c] <==> Allocated(cat2.bitmap, c + 2)
    requires forall c: nat | start <= c < start + n :: Allocated(cat2.bitmap, c)
    ensures SameRun(s.heap, t.heap, start, n)
  {
    hide Allocated;
    forall c | start <= c < start + n && c < |s.heap| ensures t.heap[c] == s.heap[c] {
      assert tx.b.alloc[c - 2] <==> Allocated(cat2.bitmap, c - 2 + 2);
    }
  }

  lemma StillRelaid(v: Volume, s: Volume, t: Volume, cat: Catalogue, targets: seq<nat>, m: seq<Record>)
    requires RelaidVolume(v, s, cat, targets, m) && t.Valid() && SameShape(s, t) && t.fat == s.fat && t.root == s.root
    requires |t.heap| == |s.heap| && |targets| == |cat.objects|
    requires forall i | 0 <= i < |cat.objects| :: SameRun(s.heap, t.heap, targets[i], |cat.objects[i].clusters|)
    ensures RelaidVolume(v, t, cat, targets, m)
  {
    hide SystemApart, ReadCatalogue, Payload, ReadAll, Holds, FinalFat, SameRun, GoodTargets;
    PlacedFacts(v, s, cat, targets, m);
    forall i | 0 <= i < |cat.objects| ensures PlacedAt(v, t, cat.objects, targets, m, i) {
      assert PlacedAt(v, s, cat.objects, targets, m, i);
      var p := Payload(m, v.clusterCount, i, ReadAll(v, cat.objects[i].clusters)).value;
      HoldsFrame(s.heap, t.heap, s.clusterSize, targets[i], |cat.objects[i].clusters|, p);
    }
  }

  /** Whichever commit completes, after however many crashes, and whatever a crash after it keeps: the target opens
      clean, passes verification,
          and holds every object of the scanned volume in its target run with the bytes it had. */
  lemma RedoneIsVerified(v: Volume, cat: Catalogue, m: seq<Record>, sort: seq<Key> -> seq<nat>, percent: nat,
      plan: Plan, tx: Tx, s: Volume, scanned: Catalogue, n: nat, prev: Target, body: seq<ExfatResume.Step>,
      after: Target) returns (cat2: Catalogue)
    requires Scans(v, cat) && PlannedBy(sort, v, cat, percent, plan) && RelaidVolume(v, s, cat, plan.targets, m)
    requires StageScanned(tx, s, scanned)
    requires Reached(tx, n, prev) && Attempt(tx, prev, Course(tx, body), body)
             && CrashOf(Run(prev, Course(tx, body)), after)
    ensures OpensFor(tx, after.boots.main.head, false) && BothValid(tx, after.boots)
    ensures tx.b.Valid() && tx.b.End() <= |after.bytes|
    ensures var t := VolumeAt(tx.b, after.bytes, RootOf(after.boots.main.head));
            && v.Valid() && t.Valid() && Verified(sort, t, cat2, percent)
            && |plan.targets| == |cat.objects| && MovedAll(cat.objects, cat2.objects, plan.targets)
            && forall i | 0 <= i < |cat.objects|
                 && (cat.objects[i].kind == FileKind || cat.objects[i].kind == UpcaseKind) ::
                 SameBytes(v, cat.objects[i], t, cat2.objects[i])
  {
    hide *;
    ScannedTx(tx, s, scanned);
    CompletedKeeps(tx, n, prev, body, after);
    CopiedIsRelaid(v, cat, plan.targets, m, tx, s, scanned, after.bytes);
    var t := StageParts(tx, s, scanned, after.bytes);
    cat2 := RelaidIsVerified(v, t, cat, m, sort, percent, plan);
    PlacedFacts(v, t, cat, plan.targets, m);
  }

  lemma ScannedTx(tx: Tx, s: Volume, scanned: Catalogue)
    requires StageScanned(tx, s, scanned)
    ensures TxOk(tx) && BothValid(tx, tx.clean) && OpensFor(tx, tx.clean.main.head, false)
    ensures |tx.clean.main.head| >= MIN_SECTOR && s.root == RootOf(tx.clean.main.head)
  {
    hide Scans, OpensFor, OpensTo, BothValid, ValidCopy, Dirty;
    OpensForExactly(tx, tx.clean.main.head, false);
  }

  lemma CompletedKeeps(tx: Tx, n: nat, prev: Target, body: seq<ExfatResume.Step>, after: Target)
    requires TxOk(tx) && Reached(tx, n, prev) && Attempt(tx, prev, Course(tx, body), body)
    requires CrashOf(Run(prev, Course(tx, body)), after)
    ensures Copied(tx, after.bytes) && after.boots == tx.clean
  {
    hide TxOk, Reached, Attempt, InRanges, Ranges, Run, Course;
    CompletedIsStaged(tx, n, prev, body);
    var r := Run(prev, Course(tx, body));
    forall o | 0 <= o < |after.bytes| && InRanges(Ranges(tx.b), o) ensures after.bytes[o] == tx.stage[o] {
      assert after.bytes[o] in r.maybe[o];
    }
  }
}
