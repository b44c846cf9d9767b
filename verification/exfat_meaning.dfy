/** Meaning preservation: a relaid volume scans to the same tree with every object in its target run. */
module ExfatMeaning {
  import opened Bytes
  import opened ExfatVolume
  import opened ExfatDirectory
  import opened ExfatScan
  import opened ExfatTree
  import opened ExfatManifest
  import opened ExfatCanonical
  import opened Wrappers

  /** Object o after relayout to t. */
  function Moved(o: Obj, t: nat): Obj {
    o.(clusters := Run(t, |o.clusters|), noFat := o.noFat || o.Named())
  }

  ghost predicate MovedAll(a: seq<Obj>, b: seq<Obj>, targets: seq<nat>)
    requires |a| <= |targets|
  {
    |b| == |a| && forall i | 0 <= i < |a| :: b[i] == Moved(a[i], targets[i])
  }

  /** Target runs fit the heap and do not overlap. */
  ghost predicate GoodTargets(clusterCount: nat, objects: seq<Obj>, targets: seq<nat>) {
    && |targets| == |objects|
    && clusterCount <= MAX_CLUSTERS
    && (forall i | 0 <= i < |objects| :: 2 <= targets[i] && targets[i] + |objects[i].clusters| <= clusterCount + 2)
    && (forall i, j | 0 <= i < |objects| && 0 <= j < |objects| && i != j ::
          RunsApart(targets[i], |objects[i].clusters|, targets[j], |objects[j].clusters|))
  }

  predicate RunsApart(s: nat, n: nat, t: nat, k: nat) {
    s + n <= t || t + k <= s
  }

  ghost function FirstClusters(objects: seq<Obj>): set<nat> {
    set i | 0 <= i < |objects| && objects[i].Directory() && objects[i].clusters != [] :: objects[i].clusters[0]
  }

  /** Byte k belongs to the first-cluster field of one of the entries at sys. */
  ghost predicate SystemByte(sys: set<nat>, k: int) {
    exists s: nat | s in sys :: s + 20 <= k < s + 24
  }

  /** cur is directory dir's bytes base with its children's sets patched and possibly system fields changed. */
  ghost predicate Rewritten(m: seq<Record>, dir: nat, base: seq<byte>, cur: seq<byte>, sys: set<nat>)
    requires GoodChildren(m, dir, base) && forall k | 0 <= k < |m| :: m[k].target < U32_LIMIT
  {
    && |cur| == |base|
    && (forall i | 0 <= i < |m| && ChildOf(m, dir, i) :: SetOf(m[i], cur) == PatchedSet(m[i], base))
    && (forall k | 0 <= k < |base| && NoChildAt(m, dir, k) && !SystemByte(sys, k) :: cur[k] == base[k])
  }

  // ---- one step of the walk on the relaid volume ------------------------------------------------

  predicate SameShape(v: Volume, v2: Volume) {
    v2.clusterSize == v.clusterSize && v2.clusterCount == v.clusterCount
  }

  /** Entries that are not objects are parsed alike. */
  lemma StepSame(v: Volume, v2: Volume, parent: nat, path: seq<byte>, data: seq<byte>, data2: seq<byte>, off: nat)
    requires v.Valid() && v2.Valid() && SameShape(v, v2) && |data2| == |data|
    requires var r := NextEntry(v, parent, path, data, off);
             r.End? || (r.Skip? && (data[off] == FILE_ENTRY ==> data2[off..r.next] == data[off..r.next]))
    requires off + ENTRY <= |data| ==> data2[off] == data[off]
    ensures NextEntry(v2, parent, path, data2, off) == NextEntry(v, parent, path, data, off)
  {
    hide ReadSet, Chain;
    var r := NextEntry(v, parent, path, data, off);
    if r.Skip? && data[off] == FILE_ENTRY {
      assert data2[off + 1] == data2[off..r.next][1] == data[off..r.next][1];
    }
  }

  /** A patched entry set is parsed as the moved object. */
  lemma StepFound(v: Volume, v2: Volume, parent: nat, path: seq<byte>, data: seq<byte>, data2: seq<byte>, off: nat,
      t: nat)
    requires v.Valid() && v2.Valid() && SameShape(v, v2) && |data2| == |data| && t < U32_LIMIT
    requires NextEntry(v, parent, path, data, off).Found?
    requires var r := NextEntry(v, parent, path, data, off);
             && Some(data2[off..r.next]) == PatchSet(data[off..r.next], r.item.entryCount, t)
             && 2 <= t && t + |r.item.clusters| <= v.clusterCount + 2
             && data2[off] == data[off] && data2[off + 1] == data[off + 1]
    ensures var r := NextEntry(v, parent, path, data, off);
            NextEntry(v2, parent, path, data2, off) == Found(Moved(r.item, t), r.next)
  {
    hide SetStep, ReadSet, PatchSet, NextEntry;
    var es := FoundSet(v, parent, path, data, off);
    var r := NextEntry(v, parent, path, data, off);
    var n := r.item.entryCount;
    PatchSetReads(data[off..r.next], n, t);
    EntryFromSet(v2, parent, path, data2, off, n, es.(first := t, noFat := true));
    SetStepMoved(v, v2, es, parent, path, off, r.next, t);
  }

  /** The entry set behind an object that the parser found. */
  lemma FoundSet(v: Volume, parent: nat, path: seq<byte>, data: seq<byte>, off: nat) returns (es: EntrySet)
    requires v.Valid() && NextEntry(v, parent, path, data, off).Found?
    ensures var r := NextEntry(v, parent, path, data, off);
            var n := r.item.entryCount;
            && off + ENTRY <= |data| && data[off] == FILE_ENTRY && n == data[off + 1] as int + 1 && n >= 2
            && r.next == off + ENTRY * n <= |data| && ReadSet(data[off..r.next], n) == Ok(es)
            && SetStep(v, es, parent, path, off, r.next) == r
  {
    var n: nat := data[off + 1] as int + 1;
    es := ReadSet(data[off..off + ENTRY * n], n).value;
  }

  lemma EntryFromSet(v: Volume, parent: nat, path: seq<byte>, data: seq<byte>, off: nat, n: nat, es: EntrySet)
    requires v.Valid() && off + ENTRY <= |data| && data[off] == FILE_ENTRY && n == data[off + 1] as int + 1 && n >= 2
    requires off + ENTRY * n <= |data| && ReadSet(data[off..off + ENTRY * n], n) == Ok(es)
    ensures NextEntry(v, parent, path, data, off) == SetStep(v, es, parent, path, off, off + ENTRY * n)
  {
    hide ReadSet, SetStep;
  }

  lemma SetStepMoved(v: Volume, v2: Volume, es: EntrySet, parent: nat, path: seq<byte>, off: nat, next: nat, t: nat)
    requires v.Valid() && v2.Valid() && SameShape(v, v2)
    requires SetStep(v, es, parent, path, off, next).Found?
    requires var o := SetStep(v, es, parent, path, off, next).item;
             2 <= t && t + |o.clusters| <= v.clusterCount + 2
    ensures SetStep(v2, es.(first := t, noFat := true), parent, path, off, next)
         == Found(Moved(SetStep(v, es, parent, path, off, next).item, t), next)
  {
    ChainShape(v, es.first, ClustersFor(es.length, v.clusterSize), true, es.noFat);
  }

  // ---- the whole parse --------------------------------------------------------------------------

  /** v2 holds, on every target run, the payload that placing the manifest's record writes there. */
  ghost predicate Placed(v: Volume, v2: Volume, objects: seq<Obj>, targets: seq<nat>, m: seq<Record>) {
    && v.Valid() && v2.Valid() && SameShape(v, v2)
    && GoodTargets(v.clusterCount, objects, targets)
    && Describes(m, objects, targets)
    && (forall i | 0 <= i < |objects| :: objects[i].clusters != [] && InHeap(v, objects[i]))
    && (forall i | 0 <= i < |objects| :: PlacedAt(v, v2, objects, targets, m, i))
  }

  ghost predicate PlacedAt(v: Volume, v2: Volume, objects: seq<Obj>, targets: seq<nat>, m: seq<Record>, i: nat)
    requires i < |objects| == |targets| == |m| && v.Valid() && InHeap(v, objects[i])
    requires forall k | 0 <= k < |m| :: m[k].target < U32_LIMIT
  {
    var p := Payload(m, v.clusterCount, i, ReadAll(v, objects[i].clusters));
    p.Some? && Holds(v2.heap, v2.clusterSize, targets[i], |objects[i].clusters|, p.value)
  }

  /** The catalogue's directories are read from their own bytes. */
  ghost predicate TreeRead(v: Volume, objects: seq<Obj>)
    requires v.Valid()
  {
    && Ordered(objects)
    && (forall d | 0 <= d < |objects| && objects[d].Directory() :: SubtreeRead(v, objects, d))
    && (forall k | 0 <= k < |objects| && objects[k].parent >= 0 :: objects[k].Named())
  }

  lemma ReadChildrenAreGood(objects: seq<Obj>, m: seq<Record>, targets: seq<nat>, dir: nat, data: seq<byte>)
    requires Describes(m, objects, targets) && ChildrenRead(objects, dir, data, 0)
    ensures GoodChildren(m, dir, data)
  {
    hide ReadSet;
    forall i | 0 <= i < |m| && ChildOf(m, dir, i)
      ensures SetInside(m[i], |data|) && ReadSet(SetOf(m[i], data), m[i].entryCount).Ok?
    {
      assert ChildAt(objects, dir, i);
      assert SetOf(m[i], data) == data[objects[i].entryOffset..SetEnd(objects[i])];
    }
    forall i, j, k | 0 <= i < j < |m| && ChildOf(m, dir, i) && ChildOf(m, dir, j) && InSet(m[i], k)
      ensures !InSet(m[j], k)
    {
      assert ChildAt(objects, dir, i) && ChildAt(objects, dir, j);
    }
  }

  /** A subdirectory's target run reads back as its patched bytes. */
  lemma DirectoryRewritten(v: Volume, v2: Volume, objects: seq<Obj>, targets: seq<nat>, m: seq<Record>, d: nat)
    requires Placed(v, v2, objects, targets, m) && TreeRead(v, objects)
    requires d < |objects| && objects[d].kind == DirectoryKind
    ensures var data := ReadAll(v, objects[d].clusters);
            && GoodChildren(m, d, data)
            && Rewritten(m, d, data, ReadAll(v2, Run(targets[d], |objects[d].clusters|)), {})
  {
    var data := ReadAll(v, objects[d].clusters);
    assert SubtreeRead(v, objects, d);
    ReadChildrenAreGood(objects, m, targets, d, data);
    PatchChildrenExact(m, d, data, data, 0);
    assert PlacedAt(v, v2, objects, targets, m, d);
    HoldsReads(v2, targets[d], |objects[d].clusters|, PatchDirectory(m, d, data).value);
  }

  /** Bytes that neither a child's set nor a system field covers are kept. */
  lemma KeptRange(m: seq<Record>, dir: nat, base: seq<byte>, cur: seq<byte>, sys: set<nat>, lo: nat, hi: nat)
    requires GoodChildren(m, dir, base) && forall k | 0 <= k < |m| :: m[k].target < U32_LIMIT
    requires Rewritten(m, dir, base, cur, sys) && lo <= hi <= |base|
    requires forall i | 0 <= i < |m| && ChildOf(m, dir, i) ::
               m[i].entryOffset + ENTRY * m[i].entryCount <= lo || hi <= m[i].entryOffset
    requires forall s | s in sys :: s + 24 <= lo || hi <= s + 20
    ensures cur[lo..hi] == base[lo..hi]
  {
    forall k | lo <= k < hi ensures cur[k] == base[k] {
      assert NoChildAt(m, dir, k);
    }
  }

  /** Children of dir found before the walk reached off end there; later ones start at or after next. */
  ghost predicate ChildrenAround(objects: seq<Obj>, dir: nat, before: nat, off: nat, next: nat) {
    forall i | 0 <= i < |objects| && ChildAt(objects, dir, i) ::
      if i < before then SetEnd(objects[i]) <= off else objects[i].entryOffset >= next
  }

  /** System entries not yet passed are still on the walk. */
  ghost predicate SystemAhead(data: seq<byte>, off: nat, sys: set<nat>) {
    forall s | s in sys ::
          s % ENTRY == 0 && s + ENTRY <= |data| && data[s] != FILE_ENTRY && (s < off || OnWalk(data, off, s))
  }

  /** Past one entry, the system entries still ahead do not touch it. */
  lemma SystemStep(data: seq<byte>, off: nat, sys: set<nat>)
    requires SystemAhead(data, off, sys) && off % ENTRY == 0 && off + ENTRY <= |data|
    ensures SystemAhead(data, off + EntrySize(data, off), sys)
    ensures forall s | s in sys :: s + 24 <= off || off + 1 <= s + 20
    ensures data[off] == FILE_ENTRY ==> forall s | s in sys :: s + 24 <= off || off + EntrySize(data, off) <= s + 20
  {
    var next := off + EntrySize(data, off);
    forall s | s in sys
      ensures s < next || OnWalk(data, next, s)
      ensures s + 24 <= off || off + 1 <= s + 20
      ensures data[off] == FILE_ENTRY ==> s + 24 <= off || next <= s + 20
    {
      if s >= off && s != off {
        WalkIsForward(data, next, s);
      }
    }
  }

  lemma PatchKeepsHead(set_: seq<byte>, n: nat, t: nat)
    requires n >= 2 && |set_| == ENTRY * n && t < U32_LIMIT && PatchSet(set_, n, t).Some?
    ensures PatchSet(set_, n, t).value[0] == set_[0] && PatchSet(set_, n, t).value[1] == set_[1]
  {
    PatchSetFrame(set_, n, t);
  }

  /** The walk on the rewritten directory takes the same steps, finding the moved objects. */
  lemma StepRelaid(v: Volume, v2: Volume, objects: seq<Obj>, targets: seq<nat>, m: seq<Record>,
                   parent: nat, path: seq<byte>, data: seq<byte>, data2: seq<byte>, off: nat, sys: set<nat>, k: nat)
    requires Placed(v, v2, objects, targets, m)
    requires GoodChildren(m, parent, data) && Rewritten(m, parent, data, data2, sys)
    requires SystemAhead(data, off, sys) && off % ENTRY == 0
    requires forall i | 0 <= i < |objects| && ChildAt(objects, parent, i) :: objects[i].Named()
    requires var r := NextEntry(v, parent, path, data, off);
             match r
             case End => ChildrenAround(objects, parent, k, off, off + ENTRY)
             case Skip(next) => ChildrenAround(objects, parent, k, off, next)
             case Found(o, _) => k < |objects| && objects[k] == o
             case Fail(_) => false
    ensures NextEntry(v2, parent, path, data2, off) ==
            match NextEntry(v, parent, path, data, off)
            case Found(o, next) => Found(Moved(o, targets[k]), next)
            case other => other
  {
    hide ReadSet, PatchSet, SetStep, GoodChildren, Rewritten, SystemAhead, NextEntry;
    if NextEntry(v, parent, path, data, off).Found? {
      StepRelaidFound(v, v2, objects, targets, m, parent, path, data, data2, off, sys, k);
    } else {
      StepRelaidOther(v, v2, objects, targets, m, parent, path, data, data2, off, sys, k);
    }
  }

  lemma StepRelaidFound(v: Volume, v2: Volume, objects: seq<Obj>, targets: seq<nat>, m: seq<Record>,
                        parent: nat, path: seq<byte>, data: seq<byte>, data2: seq<byte>, off: nat, sys: set<nat>,
                            k: nat)
    requires Placed(v, v2, objects, targets, m)
    requires GoodChildren(m, parent, data) && Rewritten(m, parent, data, data2, sys) && off % ENTRY == 0
    requires var r := NextEntry(v, parent, path, data, off);
             r.Found? && k < |objects| && objects[k] == r.item && (ChildAt(objects, parent, k) ==> objects[k].Named())
    ensures var r := NextEntry(v, parent, path, data, off);
            NextEntry(v2, parent, path, data2, off) == Found(Moved(r.item, targets[k]), r.next)
  {
    hide ReadSet, PatchSet, SetStep, NextEntry, ReadAll;
    var r := NextEntry(v, parent, path, data, off);
    FoundIsRead(v, parent, path, data, off);
    assert ChildOf(m, parent, k);
    assert SetOf(m[k], data2) == PatchedSet(m[k], data);
    assert data2[off..r.next] == SetOf(m[k], data2) && data[off..r.next] == SetOf(m[k], data);
    PatchSetReads(data[off..r.next], r.item.entryCount, targets[k]);
    PatchKeepsHead(data[off..r.next], r.item.entryCount, targets[k]);
    assert data2[off] == data2[off..r.next][0] && data2[off + 1] == data2[off..r.next][1];
    StepFound(v, v2, parent, path, data, data2, off, targets[k]);
  }

  lemma StepRelaidOther(v: Volume, v2: Volume, objects: seq<Obj>, targets: seq<nat>, m: seq<Record>,
                        parent: nat, path: seq<byte>, data: seq<byte>, data2: seq<byte>, off: nat, sys: set<nat>,
                            k: nat)
    requires Placed(v, v2, objects, targets, m)
    requires GoodChildren(m, parent, data) && Rewritten(m, parent, data, data2, sys)
    requires SystemAhead(data, off, sys) && off % ENTRY == 0
    requires forall i | 0 <= i < |objects| && ChildAt(objects, parent, i) :: objects[i].Named()
    requires var r := NextEntry(v, parent, path, data, off);
             match r
             case End => ChildrenAround(objects, parent, k, off, off + ENTRY)
             case Skip(next) => ChildrenAround(objects, parent, k, off, next)
             case _ => false
    ensures NextEntry(v2, parent, path, data2, off) == NextEntry(v, parent, path, data, off)
  {
    hide ReadSet, PatchSet, SetStep;
    var r := NextEntry(v, parent, path, data, off);
    if off + ENTRY <= |data| {
      SystemStep(data, off, sys);
      forall i | 0 <= i < |m| && ChildOf(m, parent, i)
        ensures m[i].entryOffset + ENTRY * m[i].entryCount <= off || off + 1 <= m[i].entryOffset
        ensures r.Skip? ==> m[i].entryOffset + ENTRY * m[i].entryCount <= off || r.next <= m[i].entryOffset
      {
        assert ChildAt(objects, parent, i);
      }
      KeptRange(m, parent, data, data2, sys, off, off + 1);
      assert data2[off] == data2[off..off + 1][0] == data[off..off + 1][0] == data[off];
      if r.Skip? && data[off] == FILE_ENTRY {
        KeptRange(m, parent, data, data2, sys, off, r.next);
      }
    }
    StepSame(v, v2, parent, path, data, data2, off);
  }

  /** Objects from index hi on hang neither under dir nor under an object of [lo, hi). */
  ghost predicate ClosedAfter(objects: seq<Obj>, dir: nat, lo: nat, hi: nat) {
    forall i | hi <= i < |objects| :: objects[i].parent != dir && !(lo <= objects[i].parent < hi)
  }

  ghost predicate SameWalk(w: Walk, w2: Walk, targets: seq<nat>)
    requires |w.objects| <= |targets|
  {
    && MovedAll(w.objects, w2.objects, targets)
    && w.visited == FirstClusters(w.objects) && w2.visited == FirstClusters(w2.objects)
  }

  lemma FirstClustersPush(objects: seq<Obj>, o: Obj)
    requires o.clusters != []
    ensures FirstClusters(objects + [o])
         == FirstClusters(objects) + if o.Directory() then {o.clusters[0]} else {}
  {
    var all := objects + [o];
    forall x | x in FirstClusters(objects) ensures x in FirstClusters(all) {
      var i :| 0 <= i < |objects| && objects[i].Directory() && objects[i].clusters != [] && objects[i].clusters[0] == x;
      assert all[i] == objects[i];
    }
    if o.Directory() { assert all[|objects|] == o; }
  }

  /** A target is not yet the first cluster of any moved object before it. */
  lemma FreshTarget(clusterCount: nat, objects: seq<Obj>, targets: seq<nat>, before: seq<Obj>, before2: seq<Obj>,
      k: nat)
    requires GoodTargets(clusterCount, objects, targets) && k < |objects| && |before| <= k && before <= objects
    requires forall i | 0 <= i < |objects| :: objects[i].clusters != []
    requires MovedAll(before, before2, targets)
    ensures targets[k] !in FirstClusters(before2)
  {
    forall i | 0 <= i < |before2| ensures before2[i].clusters == [] || before2[i].clusters[0] != targets[k] {
      assert before2[i] == Moved(before[i], targets[i]) && objects[i] == before[i];
      assert RunsApart(targets[i], |objects[i].clusters|, targets[k], |objects[k].clusters|);
    }
  }

  /** Growth under dir leaves ChildrenAround and ClosedAfter as the parser needs them next. */
  lemma AroundNext(v: Volume, objects: seq<Obj>, before: seq<Obj>, after: seq<Obj>, dir: nat, data: seq<byte>, off: nat,
      next: nat)
    requires v.Valid() && after <= objects && dir < |before| && Grown(v, before, after, dir, data, next)
    requires ClosedAfter(objects, dir, |before|, |after|)
    requires forall i | 0 <= i < |before| && ChildAt(objects, dir, i) :: SetEnd(objects[i]) <= off
    ensures ChildrenAround(objects, dir, |before|, off, next)
  {
    forall i | 0 <= i < |objects| && ChildAt(objects, dir, i)
      ensures if i < |before| then SetEnd(objects[i]) <= off else objects[i].entryOffset >= next
    {
      if |before| <= i < |after| { assert after[i] == objects[i]; }
    }
  }

  lemma MovedPush(w: Walk, w2: Walk, o: Obj, targets: seq<nat>)
    requires |w.objects| < |targets| && SameWalk(w, w2, targets) && o.clusters != []
    ensures var k := |w.objects|;
            var o2 := Moved(o, targets[k]);
            var f := if o.Directory() then {o.clusters[0]} else {};
            var f2 := if o.Directory() then {targets[k]} else {};
            SameWalk(Walk(w.objects + [o], w.visited + f), Walk(w2.objects + [o2], w2.visited + f2), targets)
  {
    FirstClustersPush(w.objects, o);
    FirstClustersPush(w2.objects, Moved(o, targets[|w.objects|]));
  }

  /** The object found at off keeps its place in the finished catalogue. */
  lemma FoundStays(v: Volume, w: Walk, objects: seq<Obj>, parent: nat, path: seq<byte>, data: seq<byte>, off: nat)
    requires v.Valid() && ParseDir(v, w, parent, path, data, off).Ok?
    requires ParseDir(v, w, parent, path, data, off).value.objects <= objects
    requires parent < |w.objects| && Ordered(w.objects) && off % ENTRY == 0
    requires NextEntry(v, parent, path, data, off).Found?
    ensures |w.objects| < |objects| && objects[|w.objects|] == NextEntry(v, parent, path, data, off).item
  {
    hide NextEntry, Grown, ParseDir, ReadAll;
    PassEntry(v, w, parent, path, data, off);
    ParseGrows(v, w, parent, path, data, off);
    var o := NextEntry(v, parent, path, data, off).item;
    var next := NextEntry(v, parent, path, data, off).next;
    NextSize(v, parent, path, data, off);
    FoundIsRead(v, parent, path, data, off);
    var w1 := Walk(w.objects + [o], w.visited);
    if o.kind == FileKind {
      ParseGrows(v, w1, parent, path, data, next);
      GrownExtends(v, w1.objects, ParseDir(v, w1, parent, path, data, next).value.objects, parent, data, next);
    } else {
      var w2 := Walk(w.objects + [o], w.visited + {o.clusters[0]});
      EnterDirectory(v, w, parent, path, data, off, o, next);
      ParseGrows(v, w2, |w.objects|, o.path, ReadAll(v, o.clusters), 0);
      var w3 := ParseDir(v, w2, |w.objects|, o.path, ReadAll(v, o.clusters), 0).value;
      GrownExtends(v, w2.objects, w3.objects, |w.objects|, ReadAll(v, o.clusters), 0);
      ParseGrows(v, w3, parent, path, data, next);
      GrownExtends(v, w3.objects, ParseDir(v, w3, parent, path, data, next).value.objects, parent, data, next);
    }
  }

  /** A finished subtree under k keeps both calls' bookkeeping. */
  lemma ChildClosed(v: Volume, objects: seq<Obj>, first: seq<Obj>, mid: seq<Obj>, last: seq<Obj>,
                    parent: nat, k: nat, child: seq<byte>, data: seq<byte>, next: nat)
    requires v.Valid() && |first| == k + 1 && parent < k && Ordered(objects) && last <= objects
    requires Grown(v, first, mid, k, child, 0) && Grown(v, mid, last, parent, data, next)
    requires ClosedAfter(objects, parent, k, |last|)
    requires forall i | 0 <= i < |first| && ChildAt(objects, parent, i) :: SetEnd(objects[i]) <= next
    ensures mid <= objects
    ensures ClosedAfter(objects, k, k + 1, |mid|) && ClosedAfter(objects, parent, |mid|, |last|)
    ensures forall i | 0 <= i < k + 1 :: !ChildAt(objects, k, i)
    ensures forall i | 0 <= i < |mid| && ChildAt(objects, parent, i) :: SetEnd(objects[i]) <= next
    ensures SystemAhead(child, 0, {})
  {
    forall i | |mid| <= i < |objects| ensures objects[i].parent != k && !(k + 1 <= objects[i].parent < |mid|) {
      if i < |last| { assert last[i] == objects[i]; }
    }
    assert forall i | |first| <= i < |mid| :: mid[i] == objects[i];
  }

  lemma FreshFirst(v: Volume, v2: Volume, objects: seq<Obj>, targets: seq<nat>, m: seq<Record>, w: Walk, w2: Walk,
      k: nat)
    requires Placed(v, v2, objects, targets, m) && |w.objects| <= k < |objects| && w.objects <= objects
    requires SameWalk(w, w2, targets)
    ensures targets[k] !in w2.visited && |w2.objects| == |w.objects|
    ensures objects[k].clusters != [] && Run(targets[k], |objects[k].clusters|)[0] == targets[k]
  {
    FreshTarget(v.clusterCount, objects, targets, w.objects, w2.objects, k);
  }

  lemma TreeNames(v: Volume, objects: seq<Obj>, parent: nat)
    requires v.Valid() && TreeRead(v, objects)
    ensures Ordered(objects) && forall i | 0 <= i < |objects| && ChildAt(objects, parent, i) :: objects[i].Named()
  {
    hide SubtreeRead;
  }

  /** Both parsers stand at the same place of a directory and of its relaid form, having built the same catalogue. */
  ghost predicate InStep(v: Volume, v2: Volume, objects: seq<Obj>, targets: seq<nat>, m: seq<Record>,
                         w: Walk, w2: Walk, parent: nat, path: seq<byte>, data: seq<byte>, data2: seq<byte>, off: nat,
                             sys: set<nat>)
  {
    && v.Valid() && v2.Valid() && |targets| == |objects| && (forall k | 0 <= k < |m| :: m[k].target < U32_LIMIT)
    && Placed(v, v2, objects, targets, m) && TreeRead(v, objects)
    && ParseDir(v, w, parent, path, data, off).Ok?
    && ParseDir(v, w, parent, path, data, off).value.objects <= objects
    && parent < |w.objects| && Ordered(w.objects) && w.objects <= objects && off % ENTRY == 0
    && GoodChildren(m, parent, data) && Rewritten(m, parent, data, data2, sys) && SystemAhead(data, off, sys)
    && (forall i | 0 <= i < |w.objects| && ChildAt(objects, parent, i) :: SetEnd(objects[i]) <= off)
    && ClosedAfter(objects, parent, |w.objects|, |ParseDir(v, w, parent, path, data, off).value.objects|)
    && SameWalk(w, w2, targets)
  }

  lemma BeInStep(v: Volume, v2: Volume, objects: seq<Obj>, targets: seq<nat>, m: seq<Record>, w: Walk, w2: Walk,
                  parent: nat, path: seq<byte>, data: seq<byte>, data2: seq<byte>, off: nat, sys: set<nat>)
    requires v.Valid() && v2.Valid() && |targets| == |objects| && (forall k | 0 <= k < |m| :: m[k].target < U32_LIMIT)
    requires Placed(v, v2, objects, targets, m) && TreeRead(v, objects)
    requires ParseDir(v, w, parent, path, data, off).Ok?
    requires ParseDir(v, w, parent, path, data, off).value.objects <= objects
    requires parent < |w.objects| && Ordered(w.objects) && w.objects <= objects && off % ENTRY == 0
    requires GoodChildren(m, parent, data) && Rewritten(m, parent, data, data2, sys) && SystemAhead(data, off, sys)
    requires forall i | 0 <= i < |w.objects| && ChildAt(objects, parent, i) :: SetEnd(objects[i]) <= off
    requires ClosedAfter(objects, parent, |w.objects|, |ParseDir(v, w, parent, path, data, off).value.objects|)
    requires SameWalk(w, w2, targets)
    ensures InStep(v, v2, objects, targets, m, w, w2, parent, path, data, data2, off, sys)
  {
    hide Placed, TreeRead, ParseDir, GoodChildren, Rewritten, SystemAhead, ClosedAfter, SameWalk, Ordered;
  }

  /** At the end of the directory both parsers stop. */
  lemma StepEnd(v: Volume, v2: Volume, objects: seq<Obj>, targets: seq<nat>, m: seq<Record>, w: Walk, w2: Walk,
                  parent: nat, path: seq<byte>, data: seq<byte>, data2: seq<byte>, off: nat, sys: set<nat>)
    requires InStep(v, v2, objects, targets, m, w, w2, parent, path, data, data2, off, sys)
             && NextEntry(v, parent, path, data, off).End?
    ensures ParseDir(v2, w2, parent, path, data2, off) == Ok(w2) && ParseDir(v, w, parent, path, data, off) == Ok(w)
  {
    hide NextEntry, ReadSet, Placed, GoodChildren, Rewritten, SystemAhead, Grown, SameWalk, OnWalk, SubtreeRead,
         ParseDir, ReadAll, TreeRead, ChildrenRead;
    TreeNames(v, objects, parent);
    PassEntry(v, w, parent, path, data, off);
    PassEntry(v2, w2, parent, path, data2, off);
    ParseGrows(v, w, parent, path, data, off);
    AroundNext(v, objects, w.objects, w.objects, parent, data, off, off + ENTRY);
    StepRelaid(v, v2, objects, targets, m, parent, path, data, data2, off, sys, |w.objects|);
  }

  /** Past an entry that is no object they stay in step. */
  lemma StepSkip(v: Volume, v2: Volume, objects: seq<Obj>, targets: seq<nat>, m: seq<Record>, w: Walk, w2: Walk,
                  parent: nat, path: seq<byte>, data: seq<byte>, data2: seq<byte>, off: nat, sys: set<nat>)
    requires InStep(v, v2, objects, targets, m, w, w2, parent, path, data, data2, off, sys)
             && NextEntry(v, parent, path, data, off).Skip?
    ensures var next := NextEntry(v, parent, path, data, off).next;
            && off < next && off + ENTRY <= |data|
            && InStep(v, v2, objects, targets, m, w, w2, parent, path, data, data2, next, sys)
            && ParseDir(v, w, parent, path, data, off) == ParseDir(v, w, parent, path, data, next)
            && ParseDir(v2, w2, parent, path, data2, off) == ParseDir(v2, w2, parent, path, data2, next)
  {
    hide NextEntry, ReadSet, Placed, GoodChildren, Rewritten, SystemAhead, Grown, SameWalk, OnWalk, SubtreeRead,
         ParseDir, ReadAll, TreeRead, ChildrenRead;
    TreeNames(v, objects, parent);
    PassEntry(v, w, parent, path, data, off);
    PassEntry(v2, w2, parent, path, data2, off);
    var next := NextEntry(v, parent, path, data, off).next;
    NextSize(v, parent, path, data, off);
    SystemStep(data, off, sys);
    ParseGrows(v, w, parent, path, data, next);
    AroundNext(v, objects, w.objects, ParseDir(v, w, parent, path, data, off).value.objects, parent, data, off, next);
    StepRelaid(v, v2, objects, targets, m, parent, path, data, data2, off, sys, |w.objects|);
  }

  /** The walk with one object more. */
  function WithObject(w: Walk, o: Obj): Walk
    requires o.clusters != []
  {
    Walk(w.objects + [o], w.visited + if o.Directory() then {o.clusters[0]} else {})
  }

  /** Where one parser finds an object the other finds it moved, and the walks with it are alike. */
  lemma StepFinds(v: Volume, v2: Volume, objects: seq<Obj>, targets: seq<nat>, m: seq<Record>, w: Walk, w2: Walk,
                  parent: nat, path: seq<byte>, data: seq<byte>, data2: seq<byte>, off: nat, sys: set<nat>, o: Obj,
                      next: nat)
    requires InStep(v, v2, objects, targets, m, w, w2, parent, path, data, data2, off, sys)
             && NextEntry(v, parent, path, data, off) == Found(o, next)
    ensures |w.objects| < |objects| && objects[|w.objects|] == o && o.clusters != [] && next == SetEnd(o)
            && off + ENTRY <= |data| && off < next
    ensures var o2 := Moved(o, targets[|w.objects|]);
            && o2.clusters != [] && o2.clusters[0] == targets[|w.objects|] && o2.clusters[0] !in w2.visited
            && NextEntry(v2, parent, path, data2, off) == Found(o2, next) && |w2.objects| == |w.objects|
            && |w.objects| + 1 <= |targets| && SameWalk(WithObject(w, o), WithObject(w2, o2), targets)
    ensures next % ENTRY == 0 && SystemAhead(data, next, sys)
    ensures forall i | 0 <= i < |w.objects| + 1 && ChildAt(objects, parent, i) :: SetEnd(objects[i]) <= next
    ensures Ordered(w.objects + [o]) && w.objects + [o] <= objects
  {
    hide NextEntry, ReadSet, Placed, GoodChildren, Rewritten, SystemAhead, Grown, SameWalk, OnWalk, SubtreeRead,
         ParseDir, ReadAll, TreeRead, ChildrenRead;
    TreeNames(v, objects, parent);
    var k := |w.objects|;
    NextSize(v, parent, path, data, off);
    SystemStep(data, off, sys);
    FoundIsRead(v, parent, path, data, off);
    FoundStays(v, w, objects, parent, path, data, off);
    StepRelaid(v, v2, objects, targets, m, parent, path, data, data2, off, sys, k);
    MovedPush(w, w2, o, targets);
    FreshFirst(v, v2, objects, targets, m, w, w2, k);
  }

  /** Past a file they stay in step. */
  lemma StepFile(v: Volume, v2: Volume, objects: seq<Obj>, targets: seq<nat>, m: seq<Record>, w: Walk, w2: Walk,
                  parent: nat, path: seq<byte>, data: seq<byte>, data2: seq<byte>, off: nat, sys: set<nat>, o: Obj,
                      next: nat)
    requires InStep(v, v2, objects, targets, m, w, w2, parent, path, data, data2, off, sys)
    requires NextEntry(v, parent, path, data, off) == Found(o, next) && o.kind == FileKind
    ensures |w.objects| < |targets| && o.clusters != [] && Moved(o, targets[|w.objects|]).clusters != [] && off < next
    ensures var w1 := WithObject(w, o); var w12 := WithObject(w2, Moved(o, targets[|w.objects|]));
            && w1.visited == w.visited
            && InStep(v, v2, objects, targets, m, w1, w12, parent, path, data, data2, next, sys)
            && ParseDir(v, w, parent, path, data, off) == ParseDir(v, w1, parent, path, data, next)
            && ParseDir(v2, w2, parent, path, data2, off) == ParseDir(v2, w12, parent, path, data2, next)
  {
    hide NextEntry, ReadSet, Placed, GoodChildren, Rewritten, SystemAhead, Grown, SameWalk, OnWalk, SubtreeRead,
         ParseDir, ReadAll, TreeRead, ChildrenRead;
    StepFinds(v, v2, objects, targets, m, w, w2, parent, path, data, data2, off, sys, o, next);
    PassEntry(v, w, parent, path, data, off);
    PassEntry(v2, w2, parent, path, data2, off);
    var w1 := WithObject(w, o);
    var w12 := WithObject(w2, Moved(o, targets[|w.objects|]));
    assert w1 == Walk(w.objects + [o], w.visited)
        && w12 == Walk(w2.objects + [Moved(o, targets[|w.objects|])], w2.visited);
    assert ClosedAfter(objects, parent, |w1.objects|, |ParseDir(v, w1, parent, path, data, next).value.objects|);
  }

  /** A directory on the source side: it is new, its subtree parses, and so does the rest after it. */
  lemma SourceDirectory(v: Volume, v2: Volume, objects: seq<Obj>, targets: seq<nat>, m: seq<Record>, w: Walk, w2: Walk,
                  parent: nat, path: seq<byte>, data: seq<byte>, data2: seq<byte>, off: nat, sys: set<nat>, o: Obj,
                      next: nat)
    requires InStep(v, v2, objects, targets, m, w, w2, parent, path, data, data2, off, sys)
    requires NextEntry(v, parent, path, data, off) == Found(o, next) && o.kind != FileKind
    ensures o.clusters != [] && o.kind == DirectoryKind && o.clusters[0] in v.HeapSet() - w.visited
    ensures WithObject(w, o) == Walk(w.objects + [o], w.visited + {o.clusters[0]})
    ensures var below := ParseDir(v, WithObject(w, o), |w.objects|, o.path, ReadAll(v, o.clusters), 0);
            && below.Ok? && w.visited + {o.clusters[0]} <= below.value.visited
            && ParseDir(v, w, parent, path, data, off) == ParseDir(v, below.value, parent, path, data, next)
            && Ordered(below.value.objects) && w.objects + [o] <= below.value.objects
            && Grown(v, w.objects + [o], below.value.objects, |w.objects|, ReadAll(v, o.clusters), 0)
  {
    hide NextEntry, ReadSet, Placed, GoodChildren, Rewritten, SystemAhead, Grown, SameWalk, OnWalk, SubtreeRead,
         ParseDir, ReadAll, TreeRead, ChildrenRead;
    StepFinds(v, v2, objects, targets, m, w, w2, parent, path, data, data2, off, sys, o, next);
    PassEntry(v, w, parent, path, data, off);
    EnterDirectory(v, w, parent, path, data, off, o, next);
    FoundIsRead(v, parent, path, data, off);
    ParseGrows(v, WithObject(w, o), |w.objects|, o.path, ReadAll(v, o.clusters), 0);
    var below := ParseDir(v, WithObject(w, o), |w.objects|, o.path, ReadAll(v, o.clusters), 0).value;
    GrownExtends(v, w.objects + [o], below.objects, |w.objects|, ReadAll(v, o.clusters), 0);
  }

  /** What remains of the catalogue splits at the end of the directory's subtree. */
  lemma SourceSplits(v: Volume, v2: Volume, objects: seq<Obj>, targets: seq<nat>, m: seq<Record>, w: Walk, w2: Walk,
                  parent: nat, path: seq<byte>, data: seq<byte>, data2: seq<byte>, off: nat, sys: set<nat>, o: Obj,
                      next: nat)
    requires InStep(v, v2, objects, targets, m, w, w2, parent, path, data, data2, off, sys)
    requires NextEntry(v, parent, path, data, off) == Found(o, next) && o.kind != FileKind && o.clusters != []
    requires ParseDir(v, WithObject(w, o), |w.objects|, o.path, ReadAll(v, o.clusters), 0).Ok?
    ensures var mid := ParseDir(v, WithObject(w, o), |w.objects|, o.path, ReadAll(v, o.clusters), 0).value.objects;
            var last := ParseDir(v, w, parent, path, data, off).value.objects;
            && mid <= objects && |w.objects| < |mid|
            && ClosedAfter(objects, |w.objects|, |w.objects| + 1, |mid|) && ClosedAfter(objects, parent, |mid|, |last|)
            && (forall i | 0 <= i < |w.objects| + 1 :: !ChildAt(objects, |w.objects|, i))
            && (forall i | 0 <= i < |mid| && ChildAt(objects, parent, i) :: SetEnd(objects[i]) <= next)
            && SystemAhead(ReadAll(v, o.clusters), 0, {})
  {
    hide NextEntry, ReadSet, Placed, GoodChildren, Rewritten, SystemAhead, Grown, SameWalk, OnWalk, SubtreeRead,
         ParseDir, ReadAll, TreeRead, ChildrenRead;
    StepFinds(v, v2, objects, targets, m, w, w2, parent, path, data, data2, off, sys, o, next);
    SourceDirectory(v, v2, objects, targets, m, w, w2, parent, path, data, data2, off, sys, o, next);
    var k, child := |w.objects|, ReadAll(v, o.clusters);
    var w3 := ParseDir(v, WithObject(w, o), k, o.path, child, 0).value;
    ParseGrows(v, w3, parent, path, data, next);
    TreeNames(v, objects, parent);
    ChildClosed(v, objects, w.objects + [o], w3.objects, ParseDir(v, w, parent, path, data, off).value.objects, parent,
        k,
        child, data, next);
  }

  /** At a directory they enter it in step. */
  lemma StepInto(v: Volume, v2: Volume, objects: seq<Obj>, targets: seq<nat>, m: seq<Record>, w: Walk, w2: Walk,
                  parent: nat, path: seq<byte>, data: seq<byte>, data2: seq<byte>, off: nat, sys: set<nat>, o: Obj,
                      next: nat)
    requires InStep(v, v2, objects, targets, m, w, w2, parent, path, data, data2, off, sys)
    requires NextEntry(v, parent, path, data, off) == Found(o, next) && o.kind != FileKind && o.clusters != []
    ensures |w.objects| < |targets| && Moved(o, targets[|w.objects|]).clusters != []
    ensures v2.Valid() && InHeap(v2, Moved(o, targets[|w.objects|]))
    ensures var o2 := Moved(o, targets[|w.objects|]);
            InStep(v, v2, objects, targets, m, WithObject(w, o), WithObject(w2, o2), |w.objects|, o.path,
                   ReadAll(v, o.clusters), ReadAll(v2, o2.clusters), 0, {})
  {
    hide NextEntry, ReadSet, Placed, GoodChildren, Rewritten, SystemAhead, Grown, SameWalk, OnWalk, SubtreeRead,
         ParseDir, ReadAll, TreeRead, ChildrenRead;
    hide ClosedAfter;
    StepFinds(v, v2, objects, targets, m, w, w2, parent, path, data, data2, off, sys, o, next);
    SourceDirectory(v, v2, objects, targets, m, w, w2, parent, path, data, data2, off, sys, o, next);
    SourceSplits(v, v2, objects, targets, m, w, w2, parent, path, data, data2, off, sys, o, next);
    DirectoryRewritten(v, v2, objects, targets, m, |w.objects|);
  }

  /** And they leave it in step. */
  lemma StepOut(v: Volume, v2: Volume, objects: seq<Obj>, targets: seq<nat>, m: seq<Record>, w: Walk, w2: Walk,
                  parent: nat, path: seq<byte>, data: seq<byte>, data2: seq<byte>, off: nat, sys: set<nat>, o: Obj,
                      next: nat, w32: Walk)
    requires InStep(v, v2, objects, targets, m, w, w2, parent, path, data, data2, off, sys)
    requires NextEntry(v, parent, path, data, off) == Found(o, next) && o.kind != FileKind && o.clusters != []
    requires |w.objects| < |targets|
             && ParseDir(v, WithObject(w, o), |w.objects|, o.path, ReadAll(v, o.clusters), 0).Ok?
    requires var w3 := ParseDir(v, WithObject(w, o), |w.objects|, o.path, ReadAll(v, o.clusters), 0).value;
             |w3.objects| <= |targets| && SameWalk(w3, w32, targets)
    ensures var w3 := ParseDir(v, WithObject(w, o), |w.objects|, o.path, ReadAll(v, o.clusters), 0).value;
            InStep(v, v2, objects, targets, m, w3, w32, parent, path, data, data2, next, sys)
  {
    hide NextEntry, ReadSet, Placed, GoodChildren, Rewritten, SystemAhead, Grown, SameWalk, OnWalk, SubtreeRead,
         ParseDir, ReadAll, TreeRead, ChildrenRead;
    hide ClosedAfter;
    StepFinds(v, v2, objects, targets, m, w, w2, parent, path, data, data2, off, sys, o, next);
    SourceDirectory(v, v2, objects, targets, m, w, w2, parent, path, data, data2, off, sys, o, next);
    SourceSplits(v, v2, objects, targets, m, w, w2, parent, path, data, data2, off, sys, o, next);
  }

  /** How the parsers pass the directory. */
  lemma PassDirectory(v: Volume, v2: Volume, objects: seq<Obj>, targets: seq<nat>, m: seq<Record>, w: Walk, w2: Walk,
                  parent: nat, path: seq<byte>, data: seq<byte>, data2: seq<byte>, off: nat, sys: set<nat>, o: Obj,
                      next: nat)
    requires InStep(v, v2, objects, targets, m, w, w2, parent, path, data, data2, off, sys)
    requires NextEntry(v, parent, path, data, off) == Found(o, next) && o.kind != FileKind && o.clusters != []
    ensures |w.objects| < |targets| && Moved(o, targets[|w.objects|]).clusters != []
    ensures v2.Valid() && InHeap(v2, Moved(o, targets[|w.objects|]))
    ensures var o2 := Moved(o, targets[|w.objects|]);
            var below2 := ParseDir(v2, WithObject(w2, o2), |w.objects|, o2.path, ReadAll(v2, o2.clusters), 0);
            below2.Ok? ==>
                ParseDir(v2, w2, parent, path, data2, off)
                == ParseDir(v2, below2.value, parent, path, data2, next)
  {
    hide NextEntry, ReadSet, Placed, GoodChildren, Rewritten, SystemAhead, Grown, SameWalk, OnWalk, SubtreeRead,
         ParseDir, ReadAll, TreeRead, ChildrenRead;
    StepFinds(v, v2, objects, targets, m, w, w2, parent, path, data, data2, off, sys, o, next);
    SourceDirectory(v, v2, objects, targets, m, w, w2, parent, path, data, data2, off, sys, o, next);
    var o2 := Moved(o, targets[|w.objects|]);
    EnterDirectory(v2, w2, parent, path, data2, off, o2, next);
    assert WithObject(w2, o2) == Walk(w2.objects + [o2], w2.visited + {o2.clusters[0]});
  }

  /** Parsing the rewritten directory on the relaid volume finds the same objects, moved. */
  lemma {:induction false} Simulate(v: Volume, v2: Volume, objects: seq<Obj>, targets: seq<nat>, m: seq<Record>,
      w: Walk, w2: Walk, parent: nat, path: seq<byte>, data: seq<byte>, data2: seq<byte>, off: nat, sys: set<nat>)
    requires InStep(v, v2, objects, targets, m, w, w2, parent, path, data, data2, off, sys)
    ensures ParseDir(v2, w2, parent, path, data2, off).Ok?
    ensures v.Valid() && v2.Valid() && ParseDir(v, w, parent, path, data, off).Ok?
    ensures |ParseDir(v, w, parent, path, data, off).value.objects| <= |targets|
    ensures SameWalk(ParseDir(v, w, parent, path, data, off).value, ParseDir(v2, w2, parent, path, data2, off).value,
            targets)
    decreases v.HeapSet() - w.visited, |data| - off
  {
    hide NextEntry, ParseDir, ReadAll, InStep, SameWalk;
    InStepWalks(v, v2, objects, targets, m, w, w2, parent, path, data, data2, off, sys);
    match NextEntry(v, parent, path, data, off)
    case End => StepEnd(v, v2, objects, targets, m, w, w2, parent, path, data, data2, off, sys);
    case Skip(next) =>
      StepSkip(v, v2, objects, targets, m, w, w2, parent, path, data, data2, off, sys);
      Simulate(v, v2, objects, targets, m, w, w2, parent, path, data, data2, next, sys);
    case Found(o, next) =>
      StepFinds(v, v2, objects, targets, m, w, w2, parent, path, data, data2, off, sys, o, next);
      var o2 := Moved(o, targets[|w.objects|]);
      var w1, w12 := WithObject(w, o), WithObject(w2, o2);
      if o.kind == FileKind {
        StepFile(v, v2, objects, targets, m, w, w2, parent, path, data, data2, off, sys, o, next);
        Simulate(v, v2, objects, targets, m, w1, w12, parent, path, data, data2, next, sys);
      } else {
        SourceDirectory(v, v2, objects, targets, m, w, w2, parent, path, data, data2, off, sys, o, next);
        PassDirectory(v, v2, objects, targets, m, w, w2, parent, path, data, data2, off, sys, o, next);
        StepInto(v, v2, objects, targets, m, w, w2, parent, path, data, data2, off, sys, o, next);
        Simulate(v, v2, objects, targets, m, w1, w12, |w.objects|, o.path, ReadAll(v, o.clusters),
            ReadAll(v2, o2.clusters),
            0, {});
        var w3 := ParseDir(v, w1, |w.objects|, o.path, ReadAll(v, o.clusters), 0).value;
        var w32 := ParseDir(v2, w12, |w.objects|, o2.path, ReadAll(v2, o2.clusters), 0).value;
        StepOut(v, v2, objects, targets, m, w, w2, parent, path, data, data2, off, sys, o, next, w32);
        Simulate(v, v2, objects, targets, m, w3, w32, parent, path, data, data2, next, sys);
      }
  }

  /** What being in step says of the two walks. */
  lemma InStepWalks(v: Volume, v2: Volume, objects: seq<Obj>, targets: seq<nat>, m: seq<Record>, w: Walk, w2: Walk,
                  parent: nat, path: seq<byte>, data: seq<byte>, data2: seq<byte>, off: nat, sys: set<nat>)
    requires InStep(v, v2, objects, targets, m, w, w2, parent, path, data, data2, off, sys)
    ensures v.Valid() && v2.Valid() && ParseDir(v, w, parent, path, data, off).Ok? && |w.objects| <= |targets|
    ensures |ParseDir(v, w, parent, path, data, off).value.objects| <= |targets| && SameWalk(w, w2, targets)
    ensures !NextEntry(v, parent, path, data, off).Fail?
  {
    hide NextEntry, ReadSet, Placed, GoodChildren, Rewritten, SystemAhead, Grown, SameWalk, OnWalk, SubtreeRead,
         ParseDir, ReadAll, TreeRead, ChildrenRead;
    PassEntry(v, w, parent, path, data, off);
  }
}
