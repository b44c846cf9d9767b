/** The check of a stage before it is committed: scan it and find every object where the plan has put it. */
module ExfatCheck {
  import opened Bytes
  import opened ExfatVolume
  import opened ExfatScan
  import opened ExfatScanner
  import opened ExfatManifest
  import opened ExfatCanonical
  import opened ExfatMeaning
  import opened ExfatRelaid
  import opened ExfatPlan
  import opened ExfatFixpoint
  import opened ExfatJob
  import opened ExfatStage
  import opened Wrappers

  /** The first object of a kind and path. */
  function FindObject(objects: seq<Obj>, kind: Kind, path: seq<byte>): (r: Option<nat>)
    ensures r.Some? ==> r.value < |objects| && Same(objects[r.value], kind, path)
    ensures r.Some? ==> forall k | 0 <= k < r.value :: !Same(objects[k], kind, path)
    ensures r.None? ==> forall k | 0 <= k < |objects| :: !Same(objects[k], kind, path)
  {
    FindFrom(objects, kind, path, 0)
  }

  function FindFrom(objects: seq<Obj>, kind: Kind, path: seq<byte>, from: nat): (r: Option<nat>)
    requires from <= |objects| && forall k | 0 <= k < from :: !Same(objects[k], kind, path)
    ensures r.Some? ==> r.value < |objects| && Same(objects[r.value], kind, path)
    ensures r.Some? ==> forall k | 0 <= k < r.value :: !Same(objects[k], kind, path)
    ensures r.None? ==> forall k | 0 <= k < |objects| :: !Same(objects[k], kind, path)
    decreases |objects| - from
  {
    if from == |objects| then None
    else if Same(objects[from], kind, path) then Some(from)
    else FindFrom(objects, kind, path, from + 1)
  }

  predicate Same(o: Obj, kind: Kind, path: seq<byte>) {
    o.kind == kind && o.path == path
  }

  /** Files and the up-case table are hashed when the stage is built. */
  predicate Hashed(o: Obj) {
    o.kind == FileKind || o.kind == UpcaseKind
  }

  /** The hash of an object's data; None when its clusters are too few for its length. */
  function DigestStream(hash: seq<byte> -> seq<byte>, v: Volume, o: Obj): Option<seq<byte>>
    requires forall i | 0 <= i < |o.clusters| :: o.clusters[i] < |v.heap|
  {
    var data := ReadAll(v, o.clusters);
    if o.dataLength > |data| then None else Some(hash(data[..o.dataLength]))
  }

  ghost predicate SameHash(hash: seq<byte> -> seq<byte>, v: Volume, a: Obj, s: Volume, b: Obj) {
    && v.Valid() && s.Valid() && InHeap(v, a) && InHeap(s, b)
    && DigestStream(hash, s, b).Some? && DigestStream(hash, s, b) == DigestStream(hash, v, a)
  }

  /** One object: found, in its planned run, with the hash it had and its reserve clear. */
  ghost predicate Confirmed(hash: seq<byte> -> seq<byte>, v: Volume, cat: Catalogue, plan: Plan, s: Volume,
      cat2: Catalogue, i: nat)
    requires i < |cat.objects| == |plan.targets| == |plan.reserves|
  {
    var o := cat.objects[i];
    var found := FindObject(cat2.objects, o.kind, o.path);
    && found.Some?
    && var actual := cat2.objects[found.value];
       && actual.clusters == Run(plan.targets[i], |o.clusters|)
       && (Hashed(o) ==> SameHash(hash, v, o, s, actual))
       && (plan.percent != 0 && o.Regular() ==>
             forall c: nat | plan.targets[i] + |o.clusters| <= c < plan.targets[i] + |o.clusters| + plan.reserves[i] ::
               !Allocated(cat2.bitmap, c))
  }

  /** What the check of a stage accepts. */
  ghost predicate StageVerified(hash: seq<byte> -> seq<byte>, v: Volume, cat: Catalogue, plan: Plan, s: Volume)
    requires |cat.objects| == |plan.targets| == |plan.reserves|
  {
    exists cat2 :: Scans(s, cat2) && StageMatches(hash, v, cat, plan, s, cat2)
  }

  ghost predicate StageMatches(hash: seq<byte> -> seq<byte>, v: Volume, cat: Catalogue, plan: Plan, s: Volume,
      cat2: Catalogue)
    requires |cat.objects| == |plan.targets| == |plan.reserves|
  {
    cat2.bitmap == plan.bitmap && forall i | 0 <= i < |cat.objects| :: Confirmed(hash, v, cat, plan, s, cat2, i)
  }

  /** No two objects of one kind have the same path. */
  predicate DistinctPaths(objects: seq<Obj>) {
    forall i, j | 0 <= i < j < |objects| :: !Same(objects[j], objects[i].kind, objects[i].path)
  }

  /** What was hashed when the stage was built is long enough. */
  ghost predicate StreamsFit(v: Volume, cat: Catalogue) {
    forall i | 0 <= i < |cat.objects| && Hashed(cat.objects[i]) :: StreamFits(v, cat.objects[i])
  }

  ghost predicate StreamFits(v: Volume, o: Obj) {
    InHeap(v, o) && v.Valid() && o.dataLength <= |ReadAll(v, o.clusters)|
  }

  /** A stage laid anew passes the check exactly when no two objects of a kind have the same path. */
  lemma StageVerifiesExactly(hash: seq<byte> -> seq<byte>, v: Volume, s: Volume, cat: Catalogue, percent: nat,
      order: seq<nat>, plan: Plan, m: seq<Record>)
    requires Scans(v, cat) && RelaidVolume(v, s, cat, plan.targets, m) && Permutation(order, |cat.objects|)
    requires Planned(v.clusterCount, cat.objects, |cat.bitmap|, percent, order, plan) && plan.percent == percent
    requires StreamsFit(v, cat)
    ensures |cat.objects| == |plan.targets| == |plan.reserves|
    ensures StageVerified(hash, v, cat, plan, s) <==> DistinctPaths(cat.objects)
  {
    hide *;
    PlacedFacts(v, s, cat, plan.targets, m);
    var cat2 := MeaningPreserved(v, s, cat, plan.targets, m);
    BitmapLengthIs(v, cat);
    PlanFacts(v, cat, percent, order, plan, m, cat2);
    if DistinctPaths(cat.objects) {
      forall i | 0 <= i < |cat.objects| ensures Confirmed(hash, v, cat, plan, s, cat2, i) {
        FoundItself(cat.objects, cat2.objects, plan.targets, i);
        ConfirmedAt(hash, v, cat, plan, s, cat2, i);
      }
      Verifies(hash, v, cat, plan, s, cat2);
    } else {
      var i, j := Twins(cat.objects);
      TwinRefused(hash, v, cat, plan, s, cat2, i, j);
    }
  }

  lemma PlanFacts(v: Volume, cat: Catalogue, percent: nat, order: seq<nat>, plan: Plan, m: seq<Record>, cat2: Catalogue)
    requires Scans(v, cat) && Permutation(order, |cat.objects|)
    requires Planned(v.clusterCount, cat.objects, |cat.bitmap|, percent, order, plan)
    requires |plan.targets| == |cat.objects| > 2 && Describes(m, cat.objects, plan.targets)
    requires forall k | 0 <= k < |m| :: m[k].target < U32_LIMIT
    requires MovedCatalogue(cat, cat2, plan.targets, m, v.clusterCount) && |cat.bitmap| == cat.system.bitmapLength
    ensures |plan.reserves| == |cat.objects| && cat2.bitmap == plan.bitmap
            && MovedAll(cat.objects, cat2.objects, plan.targets)
    ensures GoodTargets(v.clusterCount, cat.objects, plan.targets)
    ensures forall i | 0 <= i < |cat.objects| && cat.objects[i].Regular() ::
              ReserveClear(v.clusterCount, plan.bitmap, plan.targets[i] + |cat.objects[i].clusters|, plan.reserves[i])
  {
    hide Planned, Permutation, Scans, GoodTargets, ReserveClear, Describes, ExpectedBitmap;
    BitmapLongEnough(v, cat);
    PlanSound(v.clusterCount, cat.objects, |cat.bitmap|, percent, order, plan);
    PlanBitmapIsExpected(v.clusterCount, cat.objects, |cat.bitmap|, percent, order, plan, m);
  }

  lemma FoundItself(objects: seq<Obj>, moved: seq<Obj>, targets: seq<nat>, i: nat)
    requires |targets| == |objects| && MovedAll(objects, moved, targets) && DistinctPaths(objects) && i < |objects|
    ensures FindObject(moved, objects[i].kind, objects[i].path) == Some(i)
  {
    forall k | 0 <= k < |objects| ensures Same(moved[k], objects[i].kind, objects[i].path) <==> k == i {
      assert moved[k] == Moved(objects[k], targets[k]);
      assert k < i ==> !Same(objects[i], objects[k].kind, objects[k].path);
      assert i < k ==> !Same(objects[k], objects[i].kind, objects[i].path);
    }
  }

  lemma ConfirmedAt(hash: seq<byte> -> seq<byte>, v: Volume, cat: Catalogue, plan: Plan, s: Volume, cat2: Catalogue,
      i: nat)
    requires i < |cat.objects| == |plan.targets| == |plan.reserves| && v.Valid() && s.Valid()
             && s.clusterCount == v.clusterCount
    requires MovedAll(cat.objects, cat2.objects, plan.targets) && cat2.bitmap == plan.bitmap && StreamsFit(v, cat)
    requires FindObject(cat2.objects, cat.objects[i].kind, cat.objects[i].path) == Some(i)
    requires cat.objects[i].kind == FileKind || cat.objects[i].kind == UpcaseKind ==>
               SameBytes(v, cat.objects[i], s, cat2.objects[i])
    requires cat.objects[i].Regular() ==>
               ReserveClear(v.clusterCount, plan.bitmap, plan.targets[i] + |cat.objects[i].clusters|, plan.reserves[i])
    ensures Confirmed(hash, v, cat, plan, s, cat2, i)
  {
    hide ReadAll, Allocated, FindObject;
    assert cat2.objects[i] == Moved(cat.objects[i], plan.targets[i]);
    if Hashed(cat.objects[i]) {
      assert StreamFits(v, cat.objects[i]);
    }
  }

  lemma Verifies(hash: seq<byte> -> seq<byte>, v: Volume, cat: Catalogue, plan: Plan, s: Volume, cat2: Catalogue)
    requires |cat.objects| == |plan.targets| == |plan.reserves| && Scans(s, cat2) && cat2.bitmap == plan.bitmap
    requires forall i | 0 <= i < |cat.objects| :: Confirmed(hash, v, cat, plan, s, cat2, i)
    ensures StageVerified(hash, v, cat, plan, s)
  {
    hide Confirmed, Scans;
    assert StageMatches(hash, v, cat, plan, s, cat2);
  }

  lemma Twins(objects: seq<Obj>) returns (i: nat, j: nat)
    requires !DistinctPaths(objects)
    ensures i < j < |objects| && Same(objects[j], objects[i].kind, objects[i].path)
  {
    i, j :| 0 <= i < j < |objects| && Same(objects[j], objects[i].kind, objects[i].path);
  }

  /** The first of two is found for both, and is in one place only. */
  lemma TwinRefused(hash: seq<byte> -> seq<byte>, v: Volume, cat: Catalogue, plan: Plan, s: Volume, cat2: Catalogue,
      i: nat, j: nat)
    requires |cat.objects| == |plan.targets| == |plan.reserves| && i < j < |cat.objects| && Scans(s, cat2)
    requires Same(cat.objects[j], cat.objects[i].kind, cat.objects[i].path)
             && MovedAll(cat.objects, cat2.objects, plan.targets)
    requires GoodTargets(v.clusterCount, cat.objects, plan.targets)
    requires forall k | 0 <= k < |cat.objects| :: |cat.objects[k].clusters| > 0
    ensures !StageVerified(hash, v, cat, plan, s)
  {
    hide ReadAll, Allocated, FindObject, DigestStream, ReadCatalogue, ExactOwnership;
    forall other | Scans(s, other) ensures !StageMatches(hash, v, cat, plan, s, other) {
      assert other == cat2;
      var o := cat.objects[j];
      assert cat2.objects[i] == Moved(cat.objects[i], plan.targets[i]);
      var found := FindObject(cat2.objects, o.kind, o.path);
      assert Same(cat2.objects[i], o.kind, o.path);
      assert found.Some? && found.value <= i;
      var k := found.value;
      assert cat2.objects[k] == Moved(cat.objects[k], plan.targets[k]);
      assert RunsApart(plan.targets[k], |cat.objects[k].clusters|, plan.targets[j], |o.clusters|);
      assert cat2.objects[k].clusters[0] == plan.targets[k];
      assert Run(plan.targets[j], |o.clusters|)[0] == plan.targets[j];
      assert !Confirmed(hash, v, cat, plan, s, cat2, j);
    }
  }

  // ---- the program ------------------------------------------------------------------------------

  method FindOne(objects: seq<Obj>, kind: Kind, path: seq<byte>) returns (r: Option<nat>)
    ensures r == FindObject(objects, kind, path)
  {
    for i := 0 to |objects|
      invariant forall k | 0 <= k < i :: !Same(objects[k], kind, path)
    {
      if objects[i].kind == kind && objects[i].path == path {
        FirstIs(objects, kind, path, i);
        return Some(i);
      }
    }
    r := None;
  }

  lemma FirstIs(objects: seq<Obj>, kind: Kind, path: seq<byte>, i: nat)
    requires i < |objects| && Same(objects[i], kind, path) && forall k | 0 <= k < i :: !Same(objects[k], kind, path)
    ensures FindObject(objects, kind, path) == Some(i)
  {
  }

  /** The check: hashes are those taken when the stage was built. */
  method VerifyStage(hash: seq<byte> -> seq<byte>, ghost v: Volume, cat: Catalogue, plan: Plan, s: Volume,
                     hashes: seq<Option<seq<byte>>>) returns (ok: bool)
    requires v.Valid() && s.Valid() && |cat.objects| == |plan.targets| == |plan.reserves| == |hashes|
    requires forall i | 0 <= i < |cat.objects| && Hashed(cat.objects[i]) ::
               InHeap(v, cat.objects[i]) && hashes[i].Some? && hashes[i] == DigestStream(hash, v, cat.objects[i])
    ensures ok <==> StageVerified(hash, v, cat, plan, s)
  {
    hide Scans, Confirmed;
    var scanned := Scan(s);
    if scanned.Err? {
      return false;
    }
    var cat2 := scanned.value.0;
    OneCatalogue(s, cat2);
    if cat2.bitmap != plan.bitmap {
      return false;
    }
    for i := 0 to |cat.objects|
      invariant forall k | 0 <= k < i :: Confirmed(hash, v, cat, plan, s, cat2, k)
    {
      var confirmed := ConfirmOne(hash, v, cat, plan, s, cat2, i, hashes[i]);
      if !confirmed {
        return false;
      }
    }
    assert StageMatches(hash, v, cat, plan, s, cat2);
    ok := true;
  }

  lemma OneCatalogue(s: Volume, cat2: Catalogue)
    requires Scans(s, cat2)
    ensures forall other | Scans(s, other) :: other == cat2
  {
    hide ReadCatalogue, ExactOwnership;
  }

  method ConfirmOne(hash: seq<byte> -> seq<byte>, ghost v: Volume, cat: Catalogue, plan: Plan, s: Volume,
      cat2: Catalogue, i: nat, expected: Option<seq<byte>>) returns (ok: bool)
    requires v.Valid() && Scans(s, cat2) && i < |cat.objects| == |plan.targets| == |plan.reserves|
    requires Hashed(cat.objects[i]) ==>
               InHeap(v, cat.objects[i]) && expected.Some? && expected == DigestStream(hash, v, cat.objects[i])
    ensures ok == Confirmed(hash, v, cat, plan, s, cat2, i)
  {
    hide ReadAll, Allocated, FindObject, DigestStream, Scans;
    var o := cat.objects[i];
    var found := FindOne(cat2.objects, o.kind, o.path);
    if found.None? {
      return false;
    }
    var actual := cat2.objects[found.value];
    if |actual.clusters| != |o.clusters| {
      return false;
    }
    for j := 0 to |actual.clusters|
      invariant forall k | 0 <= k < j :: actual.clusters[k] == plan.targets[i] + k
    {
      if actual.clusters[j] != plan.targets[i] + j {
        assert Run(plan.targets[i], |o.clusters|)[j] != actual.clusters[j];
        return false;
      }
    }
    ScannedInHeap(s, cat2, found.value);
    if o.kind == FileKind || o.kind == UpcaseKind {
      var digest := DigestStream(hash, s, actual);
      if digest != expected {
        return false;
      }
    }
    if plan.percent != 0 && o.Regular() {
      var start := plan.targets[i] + |o.clusters|;
      for r := 0 to plan.reserves[i]
        invariant forall c: nat | start <= c < start + r :: !Allocated(cat2.bitmap, c)
      {
        if Allocated(cat2.bitmap, start + r) {
          return false;
        }
      }
    }
    ok := true;
  }

  lemma ScannedInHeap(s: Volume, cat2: Catalogue, k: nat)
    requires Scans(s, cat2) && k < |cat2.objects|
    ensures s.Valid() && InHeap(s, cat2.objects[k]) && forall i | 0 <= i < |cat2.objects[k].clusters| ::
              cat2.objects[k].clusters[i] < |s.heap|
  {
    hide ReadCatalogue, ExactOwnership, ReadAll, TreeRead;
    ScanUnderstands(s, cat2);
  }
}
