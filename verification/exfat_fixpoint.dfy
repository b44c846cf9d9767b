/** Planning again on a finished volume: every object is found where it already lies. */
module ExfatFixpoint {
  import opened Bytes
  import opened ExfatVolume
  import opened ExfatScan
  import opened ExfatManifest
  import opened ExfatCanonical
  import opened ExfatMeaning
  import opened ExfatTree
  import opened ExfatRoot
  import opened ExfatRelaid
  import opened ExfatPlan
  import opened Wrappers

  ghost predicate ObjectInPlace(o: Obj, bitmap: seq<byte>, percent: nat, target: nat, reserve: nat) {
    && o.clusters == Run(target, |o.clusters|)
    && (percent != 0 && o.Regular() ==>
          forall c: nat | target + |o.clusters| <= c < target + |o.clusters| + reserve :: !Allocated(bitmap, c))
  }

  /** A scanned layout is already the planned one: same bitmap, every object its target run, its reserve free. */
  ghost predicate Canonical(objects: seq<Obj>, bitmap: seq<byte>, plan: Plan) {
    && |plan.targets| == |plan.reserves| == |objects|
    && bitmap == plan.bitmap
    && forall i | 0 <= i < |objects| ::
         ObjectInPlace(objects[i], bitmap, plan.percent, plan.targets[i], plan.reserves[i])
  }

  method CanonicalLayout(objects: seq<Obj>, bitmap: seq<byte>, plan: Plan) returns (canonical: bool)
    requires |plan.targets| == |plan.reserves| == |objects|
    ensures canonical <==> Canonical(objects, bitmap, plan)
  {
    if bitmap != plan.bitmap { return false; }
    for i := 0 to |objects|
      invariant forall k | 0 <= k < i ::
                  ObjectInPlace(objects[k], bitmap, plan.percent, plan.targets[k], plan.reserves[k])
    {
      var o := objects[i];
      for j := 0 to |o.clusters|
        invariant forall k | 0 <= k < j :: o.clusters[k] == plan.targets[i] + k
      {
        if o.clusters[j] != plan.targets[i] + j {
          assert Run(plan.targets[i], |o.clusters|)[j] != o.clusters[j];
          return false;
        }
      }
      if plan.percent != 0 && o.Regular() {
        var start := plan.targets[i] + |o.clusters|;
        for r := 0 to plan.reserves[i]
          invariant forall c: nat | start <= c < start + r :: !Allocated(bitmap, c)
        {
          if Allocated(bitmap, start + r) { return false; }
        }
      }
    }
    return true;
  }

  /** Two bitmaps that allocate the same clusters are the same bytes. */
  lemma BitmapsEqual(a: seq<byte>, b: seq<byte>)
    requires |a| == |b|
    requires forall c: nat | 2 <= c < 2 + 8 * |a| :: Allocated(a, c) <==> Allocated(b, c)
    ensures a == b
  {
    forall i | 0 <= i < |a| ensures a[i] == b[i] {
      var x: nat, y: nat := a[i] as int, b[i] as int;
      forall k: nat | k < 8 ensures Bit(x, k) <==> Bit(y, k) {
        var c: nat := 2 + 8 * i + k;
        assert Allocated(a, c) <==> Allocated(b, c);
        assert (c - 2) / 8 == i && (c - 2) % 8 == k;
      }
      assert Two(8) == 256;
      BitsDetermine(x, y, 8);
    }
  }

  /** Replanning moved objects along the same order: the same runs, the same reserves. */
  lemma Replanned(clusterCount: nat, objects: seq<Obj>, moved: seq<Obj>, length: nat, percent: nat, order: seq<nat>,
                  plan: Plan, plan2: Plan)
    requires Permutation(order, |objects|) && Planned(clusterCount, objects, length, percent, order, plan)
    requires MovedAll(objects, moved, plan.targets) && Planned(clusterCount, moved, length, percent, order, plan2)
    ensures |plan2.targets| == |plan2.reserves| == |moved| == |objects| == |plan.targets|
    ensures plan2.targets == plan.targets && plan2.reserves == plan.reserves
  {
    hide Cursor, Order, InRuns;
    forall i | 0 <= i < |objects|
      ensures plan2.targets[i] == plan.targets[i] && plan2.reserves[i] == plan.reserves[i]
    {
      var k := PositionOf(order, |objects|, i);
      assert AssignedAt(objects, order, percent, plan.targets, plan.reserves, k);
      assert AssignedAt(moved, order, percent, plan2.targets, plan2.reserves, k);
      CursorAlike(objects, moved, order, percent, k);
      assert moved[i] == Moved(objects[i], plan.targets[i]);
    }
  }

  /** Moving objects changes nothing that the sort compares. */
  lemma SameKeys(objects: seq<Obj>, moved: seq<Obj>, targets: seq<nat>)
    requires |targets| == |objects| && MovedAll(objects, moved, targets)
    ensures Keys(moved) == Keys(objects)
  {
    forall i | 0 <= i < |objects| ensures Keys(moved)[i] == Keys(objects)[i] {
      assert moved[i] == Moved(objects[i], targets[i]);
    }
  }

  lemma SameSort(fold: seq<byte> -> seq<byte>, objects: seq<Obj>, moved: seq<Obj>, targets: seq<nat>, order: seq<nat>)
    requires |targets| == |objects| && MovedAll(objects, moved, targets) && Sorted(fold, moved, order)
    ensures Sorted(fold, objects, order)
  {
    forall i, j | 0 <= i < j < |order| ensures Order(fold, objects[order[i]], objects[order[j]]) <= 0 {
      assert moved[order[i]] == Moved(objects[order[i]], targets[order[i]]);
      assert moved[order[j]] == Moved(objects[order[j]], targets[order[j]]);
    }
  }

  lemma ReplanFits(clusterCount: nat, objects: seq<Obj>, moved: seq<Obj>, length: nat, percent: nat, order: seq<nat>,
      plan: Plan)
    requires Permutation(order, |objects|) && Planned(clusterCount, objects, length, percent, order, plan)
    requires MovedAll(objects, moved, plan.targets)
    ensures Cursor(moved, order, percent, |order|) <= clusterCount + 2
  {
    hide Cursor;
    forall i | 0 <= i < |objects|
      ensures objects[i].kind == moved[i].kind && |objects[i].clusters| == |moved[i].clusters| {
      assert moved[i] == Moved(objects[i], plan.targets[i]);
    }
    CursorAlike(objects, moved, order, percent, |order|);
  }

  /** The planned bitmap is the one the manifest's targets determine. */
  lemma PlanBitmapIsExpected(clusterCount: nat, objects: seq<Obj>, length: nat, percent: nat, order: seq<nat>,
      plan: Plan, m: seq<Record>)
    requires Permutation(order, |objects|) && Planned(clusterCount, objects, length, percent, order, plan)
    requires clusterCount <= MAX_CLUSTERS && clusterCount <= 8 * length
    requires Describes(m, objects, plan.targets)
    ensures ExpectedBitmap(m, clusterCount, length) == Some(plan.bitmap)
  {
    hide Cursor, Allocated, Planned, Permutation, BitmapFrom, ExpectedBitmap, ReserveClear;
    PlanSound(clusterCount, objects, length, percent, order, plan);
    Lengths(clusterCount, objects, length, percent, order, plan);
    TargetFacts(clusterCount, objects, plan.targets, m);
    ExpectedBitmapExact(m, clusterCount, length);
    var e := ExpectedBitmap(m, clusterCount, length).value;
    forall c: nat | 2 <= c < 2 + 8 * length ensures Allocated(e, c) <==> Allocated(plan.bitmap, c) {
      if InTargets(m, |m|, c) {
        var i :| 0 <= i < |m| && InTarget(m[i], c);
        assert m[i] == RecordOf(objects[i], plan.targets[i], m[i].staged);
      }
      if i :| 0 <= i < |objects| && plan.targets[i] <= c < plan.targets[i] + |objects[i].clusters| {
        assert m[i] == RecordOf(objects[i], plan.targets[i], m[i].staged);
        assert InTarget(m[i], c);
      }
    }
    BitmapsEqual(e, plan.bitmap);
  }

  /** Moved objects that carry their own plan are canonical for it. */
  lemma MovedIsCanonical(clusterCount: nat, objects: seq<Obj>, moved: seq<Obj>, length: nat, percent: nat,
      order: seq<nat>, plan: Plan)
    requires Permutation(order, |objects|) && Planned(clusterCount, objects, length, percent, order, plan)
    requires clusterCount <= MAX_CLUSTERS && clusterCount <= 8 * length
    requires MovedAll(objects, moved, plan.targets)
    ensures |plan.targets| == |plan.reserves| == |moved| && Canonical(moved, plan.bitmap, plan)
  {
    hide Cursor, Allocated, Planned, Permutation;
    PlanSound(clusterCount, objects, length, percent, order, plan);
    Lengths(clusterCount, objects, length, percent, order, plan);
    forall i | 0 <= i < |moved|
      ensures ObjectInPlace(moved[i], plan.bitmap, plan.percent, plan.targets[i], plan.reserves[i])
    {
      assert moved[i] == Moved(objects[i], plan.targets[i]);
    }
  }

  /** The plan is also a plan of the moved objects. */
  lemma MovedPlanned(clusterCount: nat, objects: seq<Obj>, moved: seq<Obj>, length: nat, percent: nat, order: seq<nat>,
      plan: Plan)
    requires Permutation(order, |objects|) && Planned(clusterCount, objects, length, percent, order, plan)
    requires MovedAll(objects, moved, plan.targets)
    ensures |moved| == |objects| && Indices(order, |moved|)
            && Planned(clusterCount, moved, length, percent, order, plan)
  {
    hide Cursor, Allocated;
    forall i | 0 <= i < |objects|
      ensures objects[i].kind == moved[i].kind && |objects[i].clusters| == |moved[i].clusters| {
      assert moved[i] == Moved(objects[i], plan.targets[i]);
    }
    CursorAlike(objects, moved, order, percent, |order|);
    forall k | 0 <= k < |order| ensures AssignedAt(moved, order, percent, plan.targets, plan.reserves, k) {
      CursorAlike(objects, moved, order, percent, k);
      assert AssignedAt(objects, order, percent, plan.targets, plan.reserves, k);
    }
    forall c | 2 <= c < 2 + 8 * length
      ensures Allocated(plan.bitmap, c) <==> InRuns(moved, order, percent, |order|, c) {
      forall k | 0 <= k < |order| ensures InRun(objects, order, percent, k, c) <==> InRun(moved, order, percent, k, c) {
        CursorAlike(objects, moved, order, percent, k);
      }
    }
  }

  /** How the second sort comes to the order of the first: it is the same sort of the same keys, or no
      two keys are equal. */
  ghost predicate SortedAgain(fold: seq<byte> -> seq<byte>, objects: seq<Obj>, order: seq<nat>, moved: seq<Obj>,
                              order2: seq<nat>)
  {
    || (exists sort: seq<Key> -> seq<nat> :: order == sort(Keys(objects)) && order2 == sort(Keys(moved)))
    || (DistinctKeys(fold, objects) && Sorted(fold, objects, order) && Sorted(fold, moved, order2))
  }

  lemma SameOrder(fold: seq<byte> -> seq<byte>, objects: seq<Obj>, order: seq<nat>, moved: seq<Obj>, order2: seq<nat>,
                  targets: seq<nat>)
    requires |targets| == |objects| && MovedAll(objects, moved, targets)
             && SortedAgain(fold, objects, order, moved, order2)
    ensures order2 == order
  {
    hide Sorted, DistinctKeys;
    SameKeys(objects, moved, targets);
    if DistinctKeys(fold, objects) && Sorted(fold, objects, order) && Sorted(fold, moved, order2) {
      SameSort(fold, objects, moved, targets, order2);
      SortedUnique(fold, objects, order, order2);
    }
  }

  /** Planning on the finished volume succeeds, assigns every object the run it occupies and the bitmap it has,
      so the layout check holds there: final verification cannot fail on the layout and a second run is not needed. */
  lemma PlannerFixpoint(fold: seq<byte> -> seq<byte>, v: Volume, v2: Volume, cat: Catalogue, cat2: Catalogue,
      percent: nat, order: seq<nat>, plan: Plan, m: seq<Record>, order2: seq<nat>)
    requires Understood(v, cat) && Permutation(order, |cat.objects|)
    requires Planned(v.clusterCount, cat.objects, cat.system.bitmapLength, percent, order, plan)
    requires |plan.targets| > 2 && Describes(m, cat.objects, plan.targets)
    requires MovedCatalogue(cat, cat2, plan.targets, m, v.clusterCount)
    requires SortedAgain(fold, cat.objects, order, cat2.objects, order2)
    ensures Permutation(order2, |cat2.objects|) && Cursor(cat2.objects, order2, percent, |order2|) <= v.clusterCount + 2
    ensures forall plan2 | Planned(v.clusterCount, cat2.objects, cat.system.bitmapLength, percent, order2, plan2) ::
              plan2 == plan && Canonical(cat2.objects, cat2.bitmap, plan2)
  {
    hide Cursor, Allocated, Planned, TreeRead, SystemFound, ReadAll, StopsOnWalk, ExpectedBitmap, Canonical,
         SortedAgain, Permutation;
    var length := cat.system.bitmapLength;
    SameOrder(fold, cat.objects, order, cat2.objects, order2, plan.targets);
    PermutationIndices(order, |cat.objects|);
    ReplanFits(v.clusterCount, cat.objects, cat2.objects, length, percent, order, plan);
    PlanBitmapIsExpected(v.clusterCount, cat.objects, length, percent, order, plan, m);
    MovedIsCanonical(v.clusterCount, cat.objects, cat2.objects, length, percent, order, plan);
    forall plan2 | Planned(v.clusterCount, cat2.objects, length, percent, order2, plan2)
      ensures plan2 == plan && Canonical(cat2.objects, cat2.bitmap, plan2)
    {
      Replanned(v.clusterCount, cat.objects, cat2.objects, length, percent, order, plan, plan2);
      SamePlan(v.clusterCount, cat.objects, cat2.objects, length, percent, order, plan, plan2);
    }
  }

  lemma SamePlan(clusterCount: nat, objects: seq<Obj>, moved: seq<Obj>, length: nat, percent: nat, order: seq<nat>,
      plan: Plan, plan2: Plan)
    requires Permutation(order, |objects|) && Planned(clusterCount, objects, length, percent, order, plan)
    requires |moved| == |objects| && Planned(clusterCount, moved, length, percent, order, plan2)
    requires MovedAll(objects, moved, plan.targets)
    requires plan2.targets == plan.targets && plan2.reserves == plan.reserves
    ensures plan2 == plan
  {
    hide Cursor, Allocated;
    forall i | 0 <= i < |objects|
      ensures objects[i].kind == moved[i].kind && |objects[i].clusters| == |moved[i].clusters| {
      assert moved[i] == Moved(objects[i], plan.targets[i]);
    }
    CursorAlike(objects, moved, order, percent, |order|);
    forall c: nat | 2 <= c < 2 + 8 * length ensures Allocated(plan.bitmap, c) <==> Allocated(plan2.bitmap, c) {
      forall k | 0 <= k < |order| ensures InRun(objects, order, percent, k, c) <==> InRun(moved, order, percent, k, c) {
        CursorAlike(objects, moved, order, percent, k);
      }
    }
    BitmapsEqual(plan.bitmap, plan2.bitmap);
  }

  /** A scan of a finished ten-percent layout reports growth satisfied exactly when there is a file. */
  lemma GrowthReported(clusterCount: nat, objects: seq<Obj>, moved: seq<Obj>, length: nat, order: seq<nat>, plan: Plan)
    requires Permutation(order, |objects|) && Planned(clusterCount, objects, length, 10, order, plan)
    requires clusterCount <= MAX_CLUSTERS && clusterCount <= 8 * length && MovedAll(objects, moved, plan.targets)
    requires forall i | 0 <= i < |objects| :: objects[i].clusters != []
    ensures GrowthSatisfied(clusterCount, moved, plan.bitmap) <==> exists i | 0 <= i < |objects| ::
              objects[i].kind == FileKind
  {
    hide Cursor, Allocated, Planned, Permutation;
    PlanSound(clusterCount, objects, length, 10, order, plan);
    Lengths(clusterCount, objects, length, 10, order, plan);
    forall i | 0 <= i < |moved|
      ensures moved[i].kind == objects[i].kind && Fragments(moved[i].clusters) == 1
      ensures moved[i].Regular() ==>
                ReserveClear(clusterCount, plan.bitmap, moved[i].clusters[|moved[i].clusters| - 1] + 1,
                    Reserve(|moved[i].clusters|, 10))
    {
      assert moved[i] == Moved(objects[i], plan.targets[i]);
      OneFragmentIsRun(moved[i].clusters);
    }
    if i :| 0 <= i < |objects| && objects[i].kind == FileKind {
      assert moved[i].kind == FileKind;
    }
  }
}
