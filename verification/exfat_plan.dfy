/** The canonical plan: the order of objects, the cursor that assigns runs, and what every plan guarantees. */
module ExfatPlan {
  import opened Bytes
  import opened ExfatVolume
  import opened ExfatScan
  import opened ExfatCanonical
  import opened ExfatMeaning
  import opened Wrappers

  const MAX_PERCENT := 25

  function Rank(k: Kind): nat {
    match k
    case BitmapKind => 0
    case UpcaseKind => 1
    case RootKind => 2
    case DirectoryKind => 3
    case FileKind => 4
  }

  /** Byte-wise comparison of folded paths: the first difference decides, and a prefix comes first. */
  function Compare(a: seq<byte>, b: seq<byte>): int {
    if a == [] || b == [] then |a| - |b|
    else if a[0] != b[0] then a[0] as int - b[0] as int
    else Compare(a[1..], b[1..])
  }

  /** The planner's comparator. Decoding and case folding of a path is the parameter fold. */
  function Order(fold: seq<byte> -> seq<byte>, a: Obj, b: Obj): int {
    if Rank(a.kind) != Rank(b.kind) then if Rank(a.kind) < Rank(b.kind) then -1 else 1
    else Compare(fold(a.path), fold(b.path))
  }

  lemma {:induction false} CompareFlips(a: seq<byte>, b: seq<byte>)
    ensures Compare(a, b) == -Compare(b, a)
  {
    if a != [] && b != [] && a[0] == b[0] { CompareFlips(a[1..], b[1..]); }
  }

  ghost predicate Permutation(order: seq<nat>, n: nat) {
    && |order| == n && NoRepeats(order)
    && (forall i | 0 <= i < n :: order[i] < n)
    && (forall x: nat | x < n :: x in order)
  }

  lemma PositionOf(order: seq<nat>, n: nat, x: nat) returns (k: nat)
    requires Permutation(order, n) && x < n
    ensures k < |order| && order[k] == x
  {
    assert x in order;
    k :| k < |order| && order[k] == x;
  }

  /** What qsort promises about the order it leaves: a permutation in which no object comes after a greater one. */
  ghost predicate Sorted(fold: seq<byte> -> seq<byte>, objects: seq<Obj>, order: seq<nat>) {
    && Permutation(order, |objects|)
    && forall i, j | 0 <= i < j < |order| :: Order(fold, objects[order[i]], objects[order[j]]) <= 0
  }

  /** What the comparator looks at. */
  datatype Key = Key(kind: Kind, path: seq<byte>)

  function Keys(objects: seq<Obj>): (r: seq<Key>)
    ensures |r| == |objects|
    ensures forall i | 0 <= i < |r| :: r[i] == Key(objects[i].kind, objects[i].path)
  {
    seq(|objects|, i requires 0 <= i < |objects| => Key(objects[i].kind, objects[i].path))
  }

  function ReserveOf(o: Obj, percent: nat): nat {
    if percent != 0 && o.Regular() then Reserve(|o.clusters|, percent) else 0
  }

  predicate Indices(order: seq<nat>, n: nat) {
    forall i | 0 <= i < |order| :: order[i] < n
  }

  lemma PermutationIndices(order: seq<nat>, n: nat)
    requires Permutation(order, n)
    ensures Indices(order, n)
  {
  }

  /** Where the cursor stands before the k-th object of the order. */
  function Cursor(objects: seq<Obj>, order: seq<nat>, percent: nat, k: nat): (r: nat)
    requires k <= |order| && Indices(order, |objects|)
    ensures r >= 2
  {
    if k == 0 then 2
    else
      var o := objects[order[k - 1]];
      Cursor(objects, order, percent, k - 1) + |o.clusters| + ReserveOf(o, percent)
  }

  function Need(o: Obj, percent: nat): nat {
    |o.clusters| + ReserveOf(o, percent)
  }

  /** Clusters that the first n objects take up with their reserves, whatever their order. */
  function TotalNeed(objects: seq<Obj>, percent: nat, n: nat): nat
    requires n <= |objects|
  {
    if n == 0 then 0 else TotalNeed(objects, percent, n - 1) + Need(objects[n - 1], percent)
  }

  /** Of the first n objects, those that an order has placed. */
  function NeedOf(objects: seq<Obj>, percent: nat, order: seq<nat>, n: nat): nat
    requires n <= |objects|
  {
    if n == 0 then 0
    else NeedOf(objects, percent, order, n - 1) + if n - 1 in order then Need(objects[n - 1], percent) else 0
  }

  lemma {:induction false} NeedMore(objects: seq<Obj>, percent: nat, order: seq<nat>, x: nat, n: nat)
    requires n <= |objects| && x < |objects| && x !in order
    ensures NeedOf(objects, percent, order + [x], n)
            == NeedOf(objects, percent, order, n) + if x < n then Need(objects[x], percent) else 0
  {
    if n > 0 { NeedMore(objects, percent, order, x, n - 1); }
  }

  lemma {:induction false} CursorIsNeed(objects: seq<Obj>, order: seq<nat>, percent: nat, k: nat)
    requires Permutation(order, |objects|) && k <= |order|
    ensures Cursor(objects, order, percent, k) == 2 + NeedOf(objects, percent, order[..k], |objects|)
  {
    if k > 0 {
      CursorIsNeed(objects, order, percent, k - 1);
      assert order[..k] == order[..k - 1] + [order[k - 1]];
      assert order[k - 1] !in order[..k - 1];
      NeedMore(objects, percent, order[..k - 1], order[k - 1], |objects|);
    } else {
      NeedNone(objects, percent, order[..0], |objects|);
    }
  }

  lemma {:induction false} NeedNone(objects: seq<Obj>, percent: nat, order: seq<nat>, n: nat)
    requires n <= |objects| && order == []
    ensures NeedOf(objects, percent, order, n) == 0
  {
    if n > 0 { NeedNone(objects, percent, order, n - 1); }
  }

  lemma {:induction false} NeedAll(objects: seq<Obj>, percent: nat, order: seq<nat>, n: nat)
    requires Permutation(order, |objects|) && n <= |objects|
    ensures NeedOf(objects, percent, order, n) == TotalNeed(objects, percent, n)
  {
    if n > 0 {
      NeedAll(objects, percent, order, n - 1);
      assert n - 1 in order;
    }
  }

  /** The last position of the cursor depends on the objects, not on their order. */
  lemma CursorIsTotal(objects: seq<Obj>, order: seq<nat>, percent: nat)
    requires Permutation(order, |objects|)
    ensures Cursor(objects, order, percent, |order|) == 2 + TotalNeed(objects, percent, |objects|)
  {
    CursorIsNeed(objects, order, percent, |order|);
    assert order[..|order|] == order;
    NeedAll(objects, percent, order, |objects|);
  }

  datatype Plan = Plan(percent: nat, targets: seq<nat>, reserves: seq<nat>, bitmap: seq<byte>, finalCluster: nat)

  /** The k-th object of the order has its run and its reserve at the cursor. */
  predicate AssignedAt(objects: seq<Obj>, order: seq<nat>, percent: nat, targets: seq<nat>, reserves: seq<nat>, k: nat)
    requires Indices(order, |objects|) && |targets| == |reserves| == |objects| && k < |order|
  {
    && targets[order[k]] == Cursor(objects, order, percent, k)
    && reserves[order[k]] == ReserveOf(objects[order[k]], percent)
  }

  /** Cluster c lies in the run of the k-th object of the order. */
  predicate InRun(objects: seq<Obj>, order: seq<nat>, percent: nat, k: nat, c: int)
    requires Indices(order, |objects|) && k < |order|
  {
    var start := Cursor(objects, order, percent, k);
    start <= c < start + |objects[order[k]].clusters|
  }

  predicate InRuns(objects: seq<Obj>, order: seq<nat>, percent: nat, n: nat, c: int)
    requires Indices(order, |objects|) && n <= |order|
  {
    exists k | 0 <= k < n :: InRun(objects, order, percent, k, c)
  }

  /** What building a plan along an order yields. */
  ghost predicate Planned(clusterCount: nat, objects: seq<Obj>, length: nat, percent: nat, order: seq<nat>, plan: Plan)
    requires Indices(order, |objects|)
  {
    && |plan.targets| == |plan.reserves| == |objects| && plan.percent == percent
    && Cursor(objects, order, percent, |order|) <= clusterCount + 2
    && (forall k | 0 <= k < |order| :: AssignedAt(objects, order, percent, plan.targets, plan.reserves, k))
    && |plan.bitmap| == length
    && (forall c | 2 <= c < 2 + 8 * length ::
         Allocated(plan.bitmap, c) <==> InRuns(objects, order, percent, |order|, c))
    && plan.finalCluster == Cursor(objects, order, percent, |order|) - 1
  }

  method BuildPlan(clusterCount: nat, objects: seq<Obj>, length: nat, percent: nat, order: seq<nat>)
    returns (r: Result<Plan>)
    requires Permutation(order, |objects|) && percent <= MAX_PERCENT
    requires clusterCount <= MAX_CLUSTERS && clusterCount <= 8 * length
    ensures r.Ok? <==> Cursor(objects, order, percent, |order|) <= clusterCount + 2
    ensures r.Ok? <==> TotalNeed(objects, percent, |objects|) <= clusterCount
    ensures r.Ok? ==> Planned(clusterCount, objects, length, percent, order, r.value)
  {
    CursorIsTotal(objects, order, percent);
    var targets := new nat[|objects|](_ => 0);
    var reserves := new nat[|objects|](_ => 0);
    var bitmap := new byte[length](_ => 0);
    NothingMarked(bitmap[..]);
    var cursor: nat := 2;
    for k := 0 to |order|
      invariant cursor == Cursor(objects, order, percent, k) <= clusterCount + 2
      invariant forall i | 0 <= i < k :: AssignedAt(objects, order, percent, targets[..], reserves[..], i)
      invariant forall c | 2 <= c < 2 + 8 * length ::
                  Allocated(bitmap[..], c) <==> InRuns(objects, order, percent, k, c)
    {
      var o := objects[order[k]];
      ghost var before, reserved := targets[..], reserves[..];
      targets[order[k]] := cursor;
      reserves[order[k]] := if percent != 0 && o.Regular() then (|o.clusters| * percent + 99) / 100 else 0;
      KeepAssigned(objects, order, percent, before, reserved, targets[..], reserves[..], k);
      var end := cursor + |o.clusters|;
      var afterReserve := end + reserves[order[k]];
      CursorGrows(objects, order, percent, k + 1, |order|);
      if end > clusterCount + 2 || afterReserve > clusterCount + 2 {
        return Err("canonical exFAT layout does not fit in the cluster heap");
      }
      ghost var marked := bitmap[..];
      MarkRun(bitmap, cursor, |o.clusters|);
      RunMarked(objects, order, percent, k, marked, bitmap[..]);
      cursor := afterReserve;
    }
    r := Ok(Plan(percent, targets[..], reserves[..], bitmap[..], if cursor == 2 then 1 else cursor - 1));
  }

  /** Setting the bits of n clusters from start, one by one, in place. */
  method MarkRun(bitmap: array<byte>, start: nat, n: nat)
    requires start >= 2 && start + n <= 2 + 8 * bitmap.Length
    modifies bitmap
    ensures forall c | 2 <= c < 2 + 8 * bitmap.Length ::
              Allocated(bitmap[..], c) <==> start <= c < start + n || Allocated(old(bitmap[..]), c)
  {
    for j := 0 to n
      invariant forall c | 2 <= c < 2 + 8 * bitmap.Length ::
                  Allocated(bitmap[..], c) <==> start <= c < start + j || Allocated(old(bitmap[..]), c)
    {
      ghost var was := bitmap[..];
      BitmapSet(bitmap, start + j);
      forall c | 2 <= c < 2 + 8 * bitmap.Length
        ensures Allocated(bitmap[..], c) <==> c == start + j || Allocated(was, c)
      {
        SetClusterReads(was, start + j, c);
      }
    }
  }

  lemma NothingMarked(bitmap: seq<byte>)
    requires forall i | 0 <= i < |bitmap| :: bitmap[i] == 0
    ensures forall c | 2 <= c < 2 + 8 * |bitmap| :: !Allocated(bitmap, c)
  {
    forall c | 2 <= c < 2 + 8 * |bitmap| ensures !Allocated(bitmap, c) {
      ZeroBit((c - 2) % 8);
    }
  }

  lemma KeepAssigned(objects: seq<Obj>, order: seq<nat>, percent: nat, targets: seq<nat>, reserves: seq<nat>,
                     targets2: seq<nat>, reserves2: seq<nat>, k: nat)
    requires Permutation(order, |objects|) && |targets| == |reserves| == |objects| && k < |order|
    requires forall i | 0 <= i < k :: AssignedAt(objects, order, percent, targets, reserves, i)
    requires targets2 == targets[order[k] := Cursor(objects, order, percent, k)]
    requires reserves2 == reserves[order[k] := ReserveOf(objects[order[k]], percent)]
    ensures forall i | 0 <= i < k + 1 :: AssignedAt(objects, order, percent, targets2, reserves2, i)
  {
    hide Cursor;
    forall i | 0 <= i < k ensures AssignedAt(objects, order, percent, targets2, reserves2, i) {
      assert AssignedAt(objects, order, percent, targets, reserves, i) && order[i] != order[k];
    }
  }

  lemma RunMarked(objects: seq<Obj>, order: seq<nat>, percent: nat, k: nat, was: seq<byte>, now: seq<byte>)
    requires Indices(order, |objects|) && k < |order| && |was| == |now|
    requires forall c | 2 <= c < 2 + 8 * |was| :: Allocated(was, c) <==> InRuns(objects, order, percent, k, c)
    requires var start := Cursor(objects, order, percent, k);
             forall c | 2 <= c < 2 + 8 * |was| ::
               Allocated(now, c) <==> start <= c < start + |objects[order[k]].clusters| || Allocated(was, c)
    ensures forall c | 2 <= c < 2 + 8 * |was| :: Allocated(now, c) <==> InRuns(objects, order, percent, k + 1, c)
  {
    hide InRuns, Cursor, Allocated;
    forall c | 2 <= c < 2 + 8 * |was|
      ensures Allocated(now, c) <==> InRuns(objects, order, percent, k + 1, c)
    {
      RunsNext(objects, order, percent, k, c);
    }
  }

  lemma RunsNext(objects: seq<Obj>, order: seq<nat>, percent: nat, k: nat, c: int)
    requires Indices(order, |objects|) && k < |order|
    ensures InRuns(objects, order, percent, k + 1, c) <==>
              InRun(objects, order, percent, k, c)
              || InRuns(objects, order, percent, k, c)
  {
    hide InRun;
    if InRuns(objects, order, percent, k + 1, c) {
      var i :| 0 <= i < k + 1 && InRun(objects, order, percent, i, c);
      assert i < k || i == k;
    }
  }

  // ---- soundness --------------------------------------------------------------------------------

  lemma {:induction false} CursorGrows(objects: seq<Obj>, order: seq<nat>, percent: nat, i: nat, j: nat)
    requires i <= j <= |order| && Indices(order, |objects|)
    ensures Cursor(objects, order, percent, i) <= Cursor(objects, order, percent, j)
    decreases j - i
  {
    if i < j { CursorGrows(objects, order, percent, i, j - 1); }
  }

  lemma Lengths(clusterCount: nat, objects: seq<Obj>, length: nat, percent: nat, order: seq<nat>, plan: Plan)
    requires Permutation(order, |objects|) && Planned(clusterCount, objects, length, percent, order, plan)
    ensures |plan.targets| == |plan.reserves| == |objects| && |plan.bitmap| == length && plan.percent == percent
  {
  }

  /** Clusters of object i with its reserve behind it. */
  function Extent(objects: seq<Obj>, plan: Plan, i: nat): nat
    requires i < |objects| == |plan.reserves|
  {
    |objects[i].clusters| + plan.reserves[i]
  }

  /** The k-th object ends, with its reserve, where the next one starts. */
  lemma ExtentAtCursor(clusterCount: nat, objects: seq<Obj>, length: nat, percent: nat, order: seq<nat>, plan: Plan,
      k: nat)
    requires Indices(order, |objects|) && Planned(clusterCount, objects, length, percent, order, plan) && k < |order|
    ensures plan.targets[order[k]] == Cursor(objects, order, percent, k)
    ensures plan.targets[order[k]] + Extent(objects, plan, order[k])
            == Cursor(objects, order, percent, k + 1) <= clusterCount + 2
  {
    assert AssignedAt(objects, order, percent, plan.targets, plan.reserves, k);
    CursorGrows(objects, order, percent, k + 1, |order|);
  }

  /** Runs with their reserves are inside the heap and pairwise disjoint. */
  lemma ExtentsApart(clusterCount: nat, objects: seq<Obj>, length: nat, percent: nat, order: seq<nat>, plan: Plan,
      i: nat, j: nat)
    requires Permutation(order, |objects|) && Planned(clusterCount, objects, length, percent, order, plan)
    requires i < |objects| && j < |objects|
    ensures 2 <= plan.targets[i] && plan.targets[i] + Extent(objects, plan, i) <= clusterCount + 2
    ensures i != j ==> RunsApart(plan.targets[i], Extent(objects, plan, i), plan.targets[j], Extent(objects, plan, j))
  {
    hide Cursor, Planned;
    var p := PositionOf(order, |objects|, i);
    var q := PositionOf(order, |objects|, j);
    ExtentAtCursor(clusterCount, objects, length, percent, order, plan, p);
    ExtentAtCursor(clusterCount, objects, length, percent, order, plan, q);
    if p < q { CursorGrows(objects, order, percent, p + 1, q); }
    else if q < p { CursorGrows(objects, order, percent, q + 1, p); }
  }

  /** The bitmap of a plan is set exactly on the target runs. */
  lemma BitmapOnTargets(clusterCount: nat, objects: seq<Obj>, length: nat, percent: nat, order: seq<nat>, plan: Plan,
      c: nat)
    requires Permutation(order, |objects|) && Planned(clusterCount, objects, length, percent, order, plan)
    requires 2 <= c < 2 + 8 * length
    ensures Allocated(plan.bitmap, c) <==>
              exists i | 0 <= i < |objects| :: plan.targets[i] <= c < plan.targets[i] + |objects[i].clusters|
  {
    hide Cursor, Allocated;
    if k :| 0 <= k < |order| && InRun(objects, order, percent, k, c) {
      assert AssignedAt(objects, order, percent, plan.targets, plan.reserves, k);
    }
    if i :| 0 <= i < |objects| && plan.targets[i] <= c < plan.targets[i] + |objects[i].clusters| {
      var k := PositionOf(order, |objects|, i);
      assert AssignedAt(objects, order, percent, plan.targets, plan.reserves, k);
      assert InRun(objects, order, percent, k, c);
    }
  }

  /** Reserve i is clear in the plan's bitmap. */
  lemma ReserveIsClear(clusterCount: nat, objects: seq<Obj>, length: nat, percent: nat, order: seq<nat>, plan: Plan,
      i: nat)
    requires Permutation(order, |objects|) && Planned(clusterCount, objects, length, percent, order, plan)
    requires i < |objects| && clusterCount <= 8 * length
    ensures ReserveClear(clusterCount, plan.bitmap, plan.targets[i] + |objects[i].clusters|, plan.reserves[i])
  {
    hide Cursor, Allocated, Planned;
    Lengths(clusterCount, objects, length, percent, order, plan);
    var start := plan.targets[i] + |objects[i].clusters|;
    ExtentsApart(clusterCount, objects, length, percent, order, plan, i, i);
    forall c: nat | start <= c < start + plan.reserves[i] ensures c < clusterCount + 2 && !Allocated(plan.bitmap, c) {
      BitmapOnTargets(clusterCount, objects, length, percent, order, plan, c);
      forall j | 0 <= j < |objects| ensures !(plan.targets[j] <= c < plan.targets[j] + |objects[j].clusters|) {
        ExtentsApart(clusterCount, objects, length, percent, order, plan, i, j);
      }
    }
  }

  lemma ReservesAre(clusterCount: nat, objects: seq<Obj>, length: nat, percent: nat, order: seq<nat>, plan: Plan,
      i: nat)
    requires Permutation(order, |objects|) && Planned(clusterCount, objects, length, percent, order, plan)
             && i < |objects|
    ensures plan.reserves[i] == ReserveOf(objects[i], percent)
  {
    hide Cursor;
    var k := PositionOf(order, |objects|, i);
    assert AssignedAt(objects, order, percent, plan.targets, plan.reserves, k);
  }

  /** Every plan gives in-heap, pairwise disjoint runs; each file is followed by exactly ceil(n * percent / 100)
      clear clusters that no other run or reserve touches; the bitmap is set exactly on the runs; nothing lies
      above the final cluster. */
  lemma PlanSound(clusterCount: nat, objects: seq<Obj>, length: nat, percent: nat, order: seq<nat>, plan: Plan)
    requires Permutation(order, |objects|) && Planned(clusterCount, objects, length, percent, order, plan)
    requires clusterCount <= MAX_CLUSTERS && clusterCount <= 8 * length
    ensures |plan.targets| == |plan.reserves| == |objects|
    ensures GoodTargets(clusterCount, objects, plan.targets)
    ensures forall i, j | 0 <= i < |objects| && 0 <= j < |objects| && i != j ::
              RunsApart(plan.targets[i], Extent(objects, plan, i), plan.targets[j], Extent(objects, plan, j))
    ensures forall i | 0 <= i < |objects| && objects[i].Regular() ::
              var n := |objects[i].clusters|;
              && n * percent <= 100 * plan.reserves[i] < n * percent + 100
              && ReserveClear(clusterCount, plan.bitmap, plan.targets[i] + n, plan.reserves[i])
    ensures forall i | 0 <= i < |objects| && !objects[i].Regular() :: plan.reserves[i] == 0
    ensures forall c | 2 <= c < 2 + 8 * length :: Allocated(plan.bitmap, c) <==>
              exists i | 0 <= i < |objects| :: plan.targets[i] <= c < plan.targets[i] + |objects[i].clusters|
    ensures forall i | 0 <= i < |objects| :: plan.targets[i] + Extent(objects, plan, i) <= plan.finalCluster + 1
  {
    hide Cursor, Allocated, Planned, Permutation, ReserveClear;
    Lengths(clusterCount, objects, length, percent, order, plan);
    forall i, j | 0 <= i < |objects| && 0 <= j < |objects|
      ensures 2 <= plan.targets[i] && plan.targets[i] + Extent(objects, plan, i) <= clusterCount + 2
      ensures i != j ==> RunsApart(plan.targets[i], Extent(objects, plan, i), plan.targets[j], Extent(objects, plan, j))
    {
      ExtentsApart(clusterCount, objects, length, percent, order, plan, i, j);
    }
    forall i | 0 <= i < |objects|
      ensures plan.reserves[i] == ReserveOf(objects[i], percent)
      ensures ReserveClear(clusterCount, plan.bitmap, plan.targets[i] + |objects[i].clusters|, plan.reserves[i])
      ensures plan.targets[i] + Extent(objects, plan, i) <= plan.finalCluster + 1
    {
      ReservesAre(clusterCount, objects, length, percent, order, plan, i);
      ReserveIsClear(clusterCount, objects, length, percent, order, plan, i);
      BelowFinal(clusterCount, objects, length, percent, order, plan, i);
    }
    forall c | 2 <= c < 2 + 8 * length
      ensures Allocated(plan.bitmap, c) <==>
                exists i | 0 <= i < |objects| :: plan.targets[i] <= c < plan.targets[i] + |objects[i].clusters|
    {
      BitmapOnTargets(clusterCount, objects, length, percent, order, plan, c);
    }
  }

  lemma BelowFinal(clusterCount: nat, objects: seq<Obj>, length: nat, percent: nat, order: seq<nat>, plan: Plan, i: nat)
    requires Permutation(order, |objects|) && Planned(clusterCount, objects, length, percent, order, plan)
             && i < |objects|
    ensures plan.targets[i] + Extent(objects, plan, i) <= plan.finalCluster + 1
  {
    hide Cursor;
    var k := PositionOf(order, |objects|, i);
    ExtentAtCursor(clusterCount, objects, length, percent, order, plan, k);
    CursorGrows(objects, order, percent, k + 1, |order|);
  }

  // ---- uniqueness -------------------------------------------------------------------------------

  /** No two objects of one kind have the same folded path. */
  ghost predicate DistinctKeys(fold: seq<byte> -> seq<byte>, objects: seq<Obj>) {
    forall i, j | 0 <= i < j < |objects| :: Order(fold, objects[i], objects[j]) != 0
  }

  lemma OrderFlips(fold: seq<byte> -> seq<byte>, a: Obj, b: Obj)
    ensures Order(fold, a, b) < 0 <==> Order(fold, b, a) > 0
    ensures Order(fold, a, b) == 0 <==> Order(fold, b, a) == 0
  {
    CompareFlips(fold(a.path), fold(b.path));
  }

  /** Two strictly ordered lists of the same objects are the same list. */
  lemma {:induction false} StrictOrderUnique(fold: seq<byte> -> seq<byte>, objects: seq<Obj>, a: seq<nat>, b: seq<nat>)
    requires |a| == |b| && Indices(a, |objects|) && Indices(b, |objects|) && NoRepeats(a) && NoRepeats(b)
    requires forall x :: x in a <==> x in b
    requires forall i, j | 0 <= i < j < |a| :: Order(fold, objects[a[i]], objects[a[j]]) < 0
    requires forall i, j | 0 <= i < j < |b| :: Order(fold, objects[b[i]], objects[b[j]]) < 0
    ensures a == b
  {
    hide Order;
    if a != [] {
      assert a[0] in b;
      assert b[0] in a;
      OrderFlips(fold, objects[a[0]], objects[b[0]]);
      assert a[0] == b[0];
      forall x ensures x in a[1..] <==> x in b[1..] {
        if x in a[1..] { assert x in a && x != a[0]; assert x in b; }
        if x in b[1..] { assert x in b && x != b[0]; assert x in a; }
      }
      StrictOrderUnique(fold, objects, a[1..], b[1..]);
    }
  }

  /** With distinct keys there is only one sorted order, whatever sort is used. */
  lemma SortedUnique(fold: seq<byte> -> seq<byte>, objects: seq<Obj>, a: seq<nat>, b: seq<nat>)
    requires DistinctKeys(fold, objects) && Sorted(fold, objects, a) && Sorted(fold, objects, b)
    ensures a == b
  {
    hide Order;
    SortedStrictly(fold, objects, a);
    SortedStrictly(fold, objects, b);
    StrictOrderUnique(fold, objects, a, b);
  }

  lemma SortedStrictly(fold: seq<byte> -> seq<byte>, objects: seq<Obj>, a: seq<nat>)
    requires DistinctKeys(fold, objects) && Sorted(fold, objects, a)
    ensures forall i, j | 0 <= i < j < |a| :: Order(fold, objects[a[i]], objects[a[j]]) < 0
  {
    hide Order;
    forall i, j | 0 <= i < j < |a| ensures Order(fold, objects[a[i]], objects[a[j]]) < 0 {
      OrderFlips(fold, objects[a[i]], objects[a[j]]);
    }
  }

  /** The same objects under other cluster numbers sort alike and get the same cursor. */
  lemma {:induction false} CursorAlike(a: seq<Obj>, b: seq<Obj>, order: seq<nat>, percent: nat, k: nat)
    requires |a| == |b| && Indices(order, |a|) && k <= |order|
    requires forall i | 0 <= i < |a| :: a[i].kind == b[i].kind && |a[i].clusters| == |b[i].clusters|
    ensures Cursor(a, order, percent, k) == Cursor(b, order, percent, k)
  {
    if k > 0 { CursorAlike(a, b, order, percent, k - 1); }
  }

  /** Equal keys make the plan depend on the sort: another sorted order moves an object. */
  lemma EqualKeysAmbiguous(fold: seq<byte> -> seq<byte>, objects: seq<Obj>, percent: nat, order: seq<nat>)
      returns (other: seq<nat>, k: nat)
    requires Sorted(fold, objects, order) && !DistinctKeys(fold, objects)
    requires forall i | 0 <= i < |objects| :: objects[i].clusters != []
    ensures Sorted(fold, objects, other) && k + 1 < |order| && other[k + 1] == order[k]
    ensures Cursor(objects, other, percent, k + 1) != Cursor(objects, order, percent, k)
  {
    k := EqualNeighbours(fold, objects, order);
    other := order[k := order[k + 1]][k + 1 := order[k]];
    SwapSorted(fold, objects, order, other, k);
    CursorPrefix(objects, order, other, percent, k);
  }

  lemma {:induction false} CursorPrefix(objects: seq<Obj>, a: seq<nat>, b: seq<nat>, percent: nat, k: nat)
    requires k <= |a| == |b| && Indices(a, |objects|) && Indices(b, |objects|) && a[..k] == b[..k]
    ensures Cursor(objects, a, percent, k) == Cursor(objects, b, percent, k)
  {
    if k > 0 {
      assert a[..k - 1] == a[..k][..k - 1] == b[..k - 1] && a[k - 1] == a[..k][k - 1] == b[k - 1];
      CursorPrefix(objects, a, b, percent, k - 1);
    }
  }

  /** In a sorted order with equal keys, two neighbours are equal. */
  lemma EqualNeighbours(fold: seq<byte> -> seq<byte>, objects: seq<Obj>, order: seq<nat>) returns (k: nat)
    requires Sorted(fold, objects, order) && !DistinctKeys(fold, objects)
    ensures k + 1 < |order| && Order(fold, objects[order[k]], objects[order[k + 1]]) == 0
  {
    hide Order;
    var i, j :| 0 <= i < j < |objects| && Order(fold, objects[i], objects[j]) == 0;
    var p := PositionOf(order, |objects|, i);
    var q := PositionOf(order, |objects|, j);
    OrderFlips(fold, objects[i], objects[j]);
    k := if p < q then p else q;
    var l := if p < q then q else p;
    Squeezed(fold, objects[order[k]], objects[order[k + 1]], objects[order[l]]);
  }

  lemma Squeezed(fold: seq<byte> -> seq<byte>, a: Obj, b: Obj, c: Obj)
    requires Order(fold, a, b) <= 0 && (b == c || Order(fold, b, c) <= 0) && Order(fold, a, c) == 0
    ensures Order(fold, a, b) == 0
  {
    CompareZero(fold(a.path), fold(c.path));
    CompareFlips(fold(b.path), fold(a.path));
  }

  lemma {:induction false} CompareZero(a: seq<byte>, b: seq<byte>)
    ensures Compare(a, b) == 0 <==> a == b
  {
    if a != [] && b != [] && a[0] == b[0] {
      CompareZero(a[1..], b[1..]);
      assert a == [a[0]] + a[1..] && b == [b[0]] + b[1..];
    }
  }

  lemma SwapSorted(fold: seq<byte> -> seq<byte>, objects: seq<Obj>, order: seq<nat>, other: seq<nat>, k: nat)
    requires Sorted(fold, objects, order) && k + 1 < |order|
    requires Order(fold, objects[order[k]], objects[order[k + 1]]) == 0
    requires other == order[k := order[k + 1]][k + 1 := order[k]]
    ensures Sorted(fold, objects, other)
  {
    hide Order;
    OrderFlips(fold, objects[order[k]], objects[order[k + 1]]);
    forall x: nat | x < |objects| ensures x in other {
      var i := PositionOf(order, |objects|, x);
      assert other[if i == k then k + 1 else if i == k + 1 then k else i] == x;
    }
    forall i, j | 0 <= i < j < |other|
      ensures Order(fold, objects[other[i]], objects[other[j]]) <= 0 && other[i] != other[j] {
    }
  }
}
