/** The order in which a plan lays the objects out, read off the clusters it assigns. */
module ExfatOrder {
  import opened Bytes
  import opened ExfatScan
  import opened ExfatPlan

  /** The bitmap, then the up-case table, then the root, then the other directories, then the files. */
  predicate KindBefore(a: Kind, b: Kind) {
    match a
    case BitmapKind => b != BitmapKind
    case UpcaseKind => b == RootKind || b == DirectoryKind || b == FileKind
    case RootKind => b == DirectoryKind || b == FileKind
    case DirectoryKind => b == FileKind
    case FileKind => false
  }

  /** At the first place where the paths differ a has the smaller byte, or has ended. */
  ghost predicate PathBefore(a: seq<byte>, b: seq<byte>) {
    exists d: nat :: DiffersAt(a, b, d)
  }

  predicate DiffersAt(a: seq<byte>, b: seq<byte>, d: nat) {
    && d <= |a| && d < |b| && a[..d] == b[..d]
    && (d == |a| || a[d] < b[d])
  }

  lemma {:induction false} ComparesPaths(a: seq<byte>, b: seq<byte>)
    ensures Compare(a, b) < 0 <==> PathBefore(a, b)
  {
    if a == [] || b == [] {
      assert b != [] ==> DiffersAt([], b, 0);
    } else if a[0] != b[0] {
      assert a[0] < b[0] ==> DiffersAt(a, b, 0);
      forall d: nat | DiffersAt(a, b, d) ensures a[0] < b[0] {
        assert d > 0 ==> a[..d][0] == b[..d][0];
      }
    } else {
      ComparesPaths(a[1..], b[1..]);
      if d: nat :| DiffersAt(a[1..], b[1..], d) {
        assert a[..d + 1] == [a[0]] + a[1..][..d] && b[..d + 1] == [b[0]] + b[1..][..d];
        assert DiffersAt(a, b, d + 1);
      }
      if d: nat :| DiffersAt(a, b, d) {
        assert d > 0;
        assert a[1..][..d - 1] == a[..d][1..] && b[1..][..d - 1] == b[..d][1..];
        assert DiffersAt(a[1..], b[1..], d - 1);
      }
    }
  }

  /** One object is laid out before another. */
  ghost predicate GoesBefore(fold: seq<byte> -> seq<byte>, a: Obj, b: Obj) {
    KindBefore(a.kind, b.kind) || (a.kind == b.kind && PathBefore(fold(a.path), fold(b.path)))
  }

  lemma OrdersKinds(fold: seq<byte> -> seq<byte>, a: Obj, b: Obj)
    ensures Order(fold, a, b) < 0 <==> GoesBefore(fold, a, b)
  {
    ComparesPaths(fold(a.path), fold(b.path));
  }

  /** Cluster c belongs to the run of some object or to its reserve. */
  predicate UsedByPlan(objects: seq<Obj>, plan: Plan, c: int)
    requires |plan.targets| == |plan.reserves| == |objects|
  {
    exists i | 0 <= i < |objects| ::
      plan.targets[i] <= c < plan.targets[i] + |objects[i].clusters| + plan.reserves[i]
  }

  /** A plan along a sorted order starts at cluster 2, leaves no gap, and puts every object, with its reserve, below
      each that goes after it: by kind, and within a kind by folded path. */
  lemma LaidOutInOrder(fold: seq<byte> -> seq<byte>, clusterCount: nat, objects: seq<Obj>, length: nat, percent: nat,
      order: seq<nat>, plan: Plan)
    requires Sorted(fold, objects, order) && Planned(clusterCount, objects, length, percent, order, plan)
    ensures |plan.targets| == |plan.reserves| == |objects|
    ensures forall i, j | 0 <= i < |objects| && 0 <= j < |objects| && GoesBefore(fold, objects[i], objects[j]) ::
              plan.targets[i] + |objects[i].clusters| + plan.reserves[i] <= plan.targets[j]
    ensures forall c: nat | 2 <= c <= plan.finalCluster :: UsedByPlan(objects, plan, c)
    ensures forall i | 0 <= i < |objects| ::
              2 <= plan.targets[i]
                  && plan.targets[i] + |objects[i].clusters| + plan.reserves[i] <= plan.finalCluster + 1
  {
    hide Cursor, Planned, Order, GoesBefore;
    Lengths(clusterCount, objects, length, percent, order, plan);
    forall i, j | 0 <= i < |objects| && 0 <= j < |objects| && GoesBefore(fold, objects[i], objects[j])
      ensures plan.targets[i] + |objects[i].clusters| + plan.reserves[i] <= plan.targets[j]
    {
      PlacedBefore(fold, clusterCount, objects, length, percent, order, plan, i, j);
    }
    FinalIsLast(clusterCount, objects, length, percent, order, plan);
    forall c: nat | 2 <= c <= plan.finalCluster ensures UsedByPlan(objects, plan, c) {
      var k := Covering(objects, order, percent, |order|, c);
      ExtentAtCursor(clusterCount, objects, length, percent, order, plan, k);
      assert plan.targets[order[k]] <= c;
    }
    forall i | 0 <= i < |objects|
      ensures 2 <= plan.targets[i]
      ensures plan.targets[i] + |objects[i].clusters| + plan.reserves[i] <= plan.finalCluster + 1
    {
      ExtentsApart(clusterCount, objects, length, percent, order, plan, i, i);
      BelowFinal(clusterCount, objects, length, percent, order, plan, i);
    }
  }

  lemma FinalIsLast(clusterCount: nat, objects: seq<Obj>, length: nat, percent: nat, order: seq<nat>, plan: Plan)
    requires Indices(order, |objects|) && Planned(clusterCount, objects, length, percent, order, plan)
    ensures plan.finalCluster + 1 == Cursor(objects, order, percent, |order|)
  {
    hide Cursor, Allocated;
  }

  lemma PlacedBefore(fold: seq<byte> -> seq<byte>, clusterCount: nat, objects: seq<Obj>, length: nat, percent: nat,
      order: seq<nat>, plan: Plan, i: nat, j: nat)
    requires Sorted(fold, objects, order) && Planned(clusterCount, objects, length, percent, order, plan)
    requires i < |objects| && j < |objects| && GoesBefore(fold, objects[i], objects[j])
    ensures |plan.targets| == |plan.reserves| == |objects|
    ensures plan.targets[i] + |objects[i].clusters| + plan.reserves[i] <= plan.targets[j]
  {
    hide Cursor, Planned, Order, GoesBefore;
    Lengths(clusterCount, objects, length, percent, order, plan);
    var p := PositionOf(order, |objects|, i);
    var q := PositionOf(order, |objects|, j);
    OrdersKinds(fold, objects[i], objects[j]);
    OrderFlips(fold, objects[i], objects[j]);
    SameZero(fold, objects[i]);
    assert p < q;
    ExtentAtCursor(clusterCount, objects, length, percent, order, plan, p);
    ExtentAtCursor(clusterCount, objects, length, percent, order, plan, q);
    CursorGrows(objects, order, percent, p + 1, q);
  }

  lemma SameZero(fold: seq<byte> -> seq<byte>, a: Obj)
    ensures Order(fold, a, a) == 0
  {
    CompareZero(fold(a.path), fold(a.path));
  }

  /** Every cluster below the cursor lies between two of its positions. */
  lemma {:induction false} Covering(objects: seq<Obj>, order: seq<nat>, percent: nat, n: nat, c: nat) returns (k: nat)
    requires Indices(order, |objects|) && n <= |order| && 2 <= c < Cursor(objects, order, percent, n)
    ensures k < n && Cursor(objects, order, percent, k) <= c < Cursor(objects, order, percent, k + 1)
  {
    if c < Cursor(objects, order, percent, n - 1) {
      k := Covering(objects, order, percent, n - 1, c);
    } else {
      k := n - 1;
    }
  }
}
