/** What a successful directory parse guarantees about the catalogue it builds. */
module ExfatTree {
  import opened Bytes
  import opened ExfatVolume
  import opened ExfatDirectory
  import opened ExfatScan
  import opened Wrappers

  predicate ChildAt(objects: seq<Obj>, dir: int, i: nat)
    requires i < |objects|
  {
    objects[i].parent == dir
  }

  function SetEnd(o: Obj): int {
    o.entryOffset + ENTRY * o.entryCount
  }

  /** Object o's entry set is a well-read set of data. */
  predicate SetRead(o: Obj, data: seq<byte>) {
    && o.Named() && o.clusters != []
    && o.entryCount >= 2 && o.entryOffset >= 0 && o.entryOffset % ENTRY == 0 && SetEnd(o) <= |data|
    && data[o.entryOffset] == FILE_ENTRY && o.entryCount == data[o.entryOffset + 1] as int + 1
    && ReadSet(data[o.entryOffset..SetEnd(o)], o.entryCount).Ok?
  }

  /** Directory dir's children from lo on: sets read from data, in increasing order without overlap. */
  ghost predicate ChildrenRead(objects: seq<Obj>, dir: int, data: seq<byte>, lo: nat) {
    && (forall i | lo <= i < |objects| && ChildAt(objects, dir, i) :: SetRead(objects[i], data))
    && (forall i, j | lo <= i < j < |objects| && ChildAt(objects, dir, i) && ChildAt(objects, dir, j) ::
          SetEnd(objects[i]) <= objects[j].entryOffset)
  }

  /** The parser's walk over a directory stops at offset s. */
  predicate OnWalk(data: seq<byte>, off: nat, s: nat)
    decreases |data| - off
  {
    && off + ENTRY <= |data| && data[off] != 0
    && (off == s || OnWalk(data, off + EntrySize(data, off), s))
  }

  function EntrySize(data: seq<byte>, off: nat): nat
    requires off + ENTRY <= |data|
  {
    if data[off] == FILE_ENTRY then ENTRY * (data[off + 1] as int + 1) else ENTRY
  }

  lemma {:induction false} WalkIsForward(data: seq<byte>, off: nat, s: nat)
    requires OnWalk(data, off, s)
    ensures s >= off
    decreases |data| - off
  {
    if off != s { WalkIsForward(data, off + EntrySize(data, off), s); }
  }

  /** Two stops of one walk are a whole entry apart. */
  lemma {:induction false} StopsApart(data: seq<byte>, off: nat, a: nat, b: nat)
    requires OnWalk(data, off, a) && OnWalk(data, off, b) && a < b
    ensures a + ENTRY <= |data| && a + EntrySize(data, a) <= b
    decreases |data| - off
  {
    if off == a {
      WalkIsForward(data, off + EntrySize(data, off), b);
    } else {
      WalkIsForward(data, off, a);
      StopsApart(data, off + EntrySize(data, off), a, b);
    }
  }

  /** Directory d's children are read from d's own bytes. */
  ghost predicate SubtreeRead(v: Volume, objects: seq<Obj>, d: nat)
    requires v.Valid() && d < |objects|
  {
    && InHeap(v, objects[d])
    && ChildrenRead(objects, d, ReadAll(v, objects[d].clusters), 0)
  }

  /** Parsing past a directory entered for the first time: its subtree, then the rest. */
  lemma EnterDirectory(v: Volume, w: Walk, parent: nat, path: seq<byte>, data: seq<byte>, off: nat, o: Obj, next: nat)
    requires v.Valid() && NextEntry(v, parent, path, data, off) == Found(o, next)
    requires o.kind != FileKind && o.clusters[0] !in w.visited
    ensures ParseDir(v, w, parent, path, data, off) ==
            match ParseDir(v, Walk(w.objects + [o], w.visited + {o.clusters[0]}), |w.objects|, o.path,
                ReadAll(v, o.clusters), 0)
            case Err(e) => Err(e)
            case Ok(below) => ParseDir(v, below, parent, path, data, next)
  {
    hide NextEntry, ReadAll;
  }

  /** Parsing past an entry that is no object, and past a file. */
  lemma PassEntry(v: Volume, w: Walk, parent: nat, path: seq<byte>, data: seq<byte>, off: nat)
    requires v.Valid()
    ensures match NextEntry(v, parent, path, data, off)
            case End => ParseDir(v, w, parent, path, data, off) == Ok(w)
            case Fail(e) => ParseDir(v, w, parent, path, data, off) == Err(e)
            case Skip(next) => ParseDir(v, w, parent, path, data, off) == ParseDir(v, w, parent, path, data, next)
            case Found(o, next) =>
              && (o.kind == FileKind ==>
                    ParseDir(v, w, parent, path, data, off)
                        == ParseDir(v, Walk(w.objects + [o], w.visited), parent, path, data, next))
              && (o.kind != FileKind && o.clusters[0] in w.visited ==>
                    ParseDir(v, w, parent, path, data, off) == Err("exFAT directory cycle or duplicate first cluster"))
  {
    hide NextEntry, ReadAll;
  }

  /** Every added object is named, in the heap, and a child of the directory or of an earlier added object. */
  ghost predicate Added(v: Volume, before: nat, after: seq<Obj>, parent: nat, off: nat)
    requires v.Valid()
  {
    forall k | before <= k < |after| ::
      && after[k].Named() && InHeap(v, after[k])
      && (after[k].parent == parent || before <= after[k].parent < k)
      && (after[k].parent == parent ==> after[k].entryOffset >= off)
  }

  ghost predicate SubtreesRead(v: Volume, before: nat, after: seq<Obj>)
    requires v.Valid()
  {
    forall d | before <= d < |after| && after[d].kind == DirectoryKind :: SubtreeRead(v, after, d)
  }

  /** The parents of added objects other than the directory itself are directories. */
  ghost predicate ParentsAreDirs(before: nat, after: seq<Obj>, parent: nat) {
    forall k | before <= k < |after| && after[k].parent != parent ::
      0 <= after[k].parent < |after| && after[after[k].parent].kind == DirectoryKind
  }

  /** What one ParseDir call adds: children of its own directory, and whole subtrees. */
  ghost predicate Grown(v: Volume, before: seq<Obj>, after: seq<Obj>, parent: nat, data: seq<byte>, off: nat)
    requires v.Valid()
  {
    && before <= after
    && Added(v, |before|, after, parent, off)
    && ChildrenRead(after, parent, data, |before|)
    && SubtreesRead(v, |before|, after)
    && ParentsAreDirs(|before|, after, parent)
  }

  /** Objects already present point to earlier objects. */
  ghost predicate Ordered(objects: seq<Obj>) {
    forall k | 0 <= k < |objects| :: objects[k].parent < k
  }

  lemma GrownExtends(v: Volume, before: seq<Obj>, after: seq<Obj>, dir: nat, data: seq<byte>, off: nat)
    requires v.Valid() && Grown(v, before, after, dir, data, off)
    ensures before <= after
  {
  }

  lemma OneMoreChild(v: Volume, before: seq<Obj>, o: Obj, parent: nat, data: seq<byte>, off: nat)
    requires v.Valid() && parent < |before| && Ordered(before)
    requires o.Named() && InHeap(v, o) && o.parent == parent && o.entryOffset == off && SetRead(o, data)
    requires o.kind == FileKind
    ensures Ordered(before + [o])
    ensures Grown(v, before, before + [o], parent, data, off)
  {
  }

  /** Growth composes: first to mid (up to an offset), then mid to last. */
  lemma GrownTrans(v: Volume, a: seq<Obj>, b: seq<Obj>, c: seq<Obj>, parent: nat, data: seq<byte>, off: nat, next: nat)
    requires v.Valid() && parent < |a| && off <= next && Ordered(a)
    requires Grown(v, a, b, parent, data, off) && Grown(v, b, c, parent, data, next)
    requires forall k | |a| <= k < |b| && b[k].parent == parent :: SetEnd(b[k]) <= next
    ensures Grown(v, a, c, parent, data, off)
  {
    hide SetRead, InHeap, ReadAll;
    forall i, j | |a| <= i < j < |c| && ChildAt(c, parent, i) && ChildAt(c, parent, j)
      ensures SetEnd(c[i]) <= c[j].entryOffset
    {
      if j < |b| {
        assert ChildAt(b, parent, i) && ChildAt(b, parent, j);
      } else if i < |b| {
        assert c[i] == b[i];
      }
    }
    forall i | |a| <= i < |c| && ChildAt(c, parent, i)
      ensures SetRead(c[i], data)
    {
      if i < |b| { assert ChildAt(b, parent, i); }
    }
    SubtreesJoin(v, a, b, c, parent, data, off, next);
  }

  lemma SubtreesJoin(v: Volume, a: seq<Obj>, b: seq<Obj>, c: seq<Obj>, parent: nat, data: seq<byte>, off: nat,
      next: nat)
    requires v.Valid() && parent < |a| && off <= next
    requires Grown(v, a, b, parent, data, off) && Grown(v, b, c, parent, data, next)
    ensures SubtreesRead(v, |a|, c)
  {
    hide SetRead, InHeap, ReadAll;
    forall d | |a| <= d < |c| && c[d].kind == DirectoryKind
      ensures SubtreeRead(v, c, d)
    {
      if d < |b| {
        assert b[d] == c[d];
        assert SubtreeRead(v, b, d);
        forall i | 0 <= i < |c| && ChildAt(c, d, i) ensures i < |b| && ChildAt(b, d, i) {
        }
      }
    }
  }

  /** A directory object together with its finished subtree is one step of growth. */
  lemma SubtreeGrown(v: Volume, before: seq<Obj>, o: Obj, after: seq<Obj>, parent: nat, data: seq<byte>, off: nat)
    requires v.Valid() && parent < |before| && Ordered(before)
    requires o.kind == DirectoryKind && InHeap(v, o) && o.parent == parent && o.entryOffset == off && SetRead(o, data)
    requires Grown(v, before + [o], after, |before|, ReadAll(v, o.clusters), 0)
    ensures Grown(v, before, after, parent, data, off)
    ensures forall k | |before| < k < |after| :: after[k].parent >= |before|
  {
    hide SetRead, SubtreesRead, ChildrenRead, ReadAll, InHeap;
    var k0 := |before|;
    assert after[k0] == o;
    forall k | k0 < k < |after| ensures after[k].parent >= k0 { }
    OnlyChild(after, parent, data, k0);
    OwnSubtree(v, before, o, after);
  }

  /** The directory is the only added child of its parent. */
  lemma OnlyChild(after: seq<Obj>, parent: nat, data: seq<byte>, k0: nat)
    requires parent < k0 < |after| && SetRead(after[k0], data)
    requires forall k | k0 < k < |after| :: after[k].parent >= k0
    ensures ChildrenRead(after, parent, data, k0)
  {
    hide SetRead;
    assert forall i | k0 <= i < |after| && ChildAt(after, parent, i) :: i == k0;
  }

  /** All its children come after it, so they are its whole subtree. */
  lemma OwnSubtree(v: Volume, before: seq<Obj>, o: Obj, after: seq<Obj>)
    requires v.Valid() && Ordered(before) && before + [o] <= after && InHeap(v, o) && o.parent < |before|
    requires ChildrenRead(after, |before|, ReadAll(v, o.clusters), |before| + 1) && SubtreesRead(v, |before| + 1, after)
    ensures SubtreesRead(v, |before|, after)
  {
    hide SetRead, ReadAll, InHeap;
    var k0 := |before|;
    assert after[k0] == o;
    assert forall i | 0 <= i < k0 :: after[i] == before[i];
    assert forall i | 0 <= i < |after| && ChildAt(after, k0, i) :: i > k0;
    assert SubtreeRead(v, after, k0);
  }

  lemma FoundIsRead(v: Volume, parent: nat, path: seq<byte>, data: seq<byte>, off: nat)
    requires v.Valid() && off % ENTRY == 0 && NextEntry(v, parent, path, data, off).Found?
    ensures var r := NextEntry(v, parent, path, data, off);
            SetRead(r.item, data) && r.next == SetEnd(r.item)
            && r.item.parent == parent && r.item.entryOffset == off
  {
  }

  lemma NextSize(v: Volume, parent: nat, path: seq<byte>, data: seq<byte>, off: nat)
    requires v.Valid()
    ensures var r := NextEntry(v, parent, path, data, off);
            r.Skip? || r.Found? ==> off + ENTRY <= |data| && data[off] != 0 && r.next == off + EntrySize(data, off)
  {
  }

  /** Every successful parse grows the catalogue in this way. */
  lemma {:induction false} ParseGrows(v: Volume, w: Walk, parent: nat, path: seq<byte>, data: seq<byte>, off: nat)
    requires v.Valid() && ParseDir(v, w, parent, path, data, off).Ok?
    requires parent < |w.objects| && Ordered(w.objects) && off % ENTRY == 0
    ensures var r := ParseDir(v, w, parent, path, data, off).value;
            Grown(v, w.objects, r.objects, parent, data, off) && Ordered(r.objects)
    decreases v.HeapSet() - w.visited, |data| - off
  {
    hide NextEntry, ParseDir, Grown, ReadAll, SetRead;
    PassEntry(v, w, parent, path, data, off);
    NextSize(v, parent, path, data, off);
    match NextEntry(v, parent, path, data, off)
    case End =>
      GrownNothing(v, w.objects, parent, data, off);
    case Skip(next) =>
      ParseGrows(v, w, parent, path, data, next);
      GrownEarlier(v, w.objects, ParseDir(v, w, parent, path, data, next).value.objects, parent, data, off, next);
    case Found(o, next) =>
      FoundIsRead(v, parent, path, data, off);
      FoundIsNamed(o, data);
      var mid := Walk(w.objects + [o], w.visited);
      if o.kind == FileKind {
        OneMoreChild(v, w.objects, o, parent, data, off);
      } else {
        EnterDirectory(v, w, parent, path, data, off, o, next);
        assert o.clusters[0] in v.HeapSet() - w.visited;
        var w2 := Walk(w.objects + [o], w.visited + {o.clusters[0]});
        ParseGrows(v, w2, |w.objects|, o.path, ReadAll(v, o.clusters), 0);
        mid := ParseDir(v, w2, |w.objects|, o.path, ReadAll(v, o.clusters), 0).value;
        SubtreeGrown(v, w.objects, o, mid.objects, parent, data, off);
        GrownExtends(v, w2.objects, mid.objects, |w.objects|, ReadAll(v, o.clusters), 0);
      }
      ParseGrows(v, mid, parent, path, data, next);
      GrownTrans(v, w.objects, mid.objects, ParseDir(v, mid, parent, path, data, next).value.objects,
                 parent, data, off, next);
  }

  lemma FoundIsNamed(o: Obj, data: seq<byte>)
    requires SetRead(o, data)
    ensures o.Named() && o.entryOffset < SetEnd(o)
  {
  }

  lemma GrownNothing(v: Volume, objects: seq<Obj>, parent: nat, data: seq<byte>, off: nat)
    requires v.Valid()
    ensures Grown(v, objects, objects, parent, data, off)
  {
  }

  lemma GrownEarlier(v: Volume, a: seq<Obj>, b: seq<Obj>, parent: nat, data: seq<byte>, off: nat, next: nat)
    requires v.Valid() && off <= next && Grown(v, a, b, parent, data, next)
    ensures Grown(v, a, b, parent, data, off)
  {
  }

  ghost predicate StopsOnWalk(objects: seq<Obj>, lo: nat, parent: nat, data: seq<byte>, off: nat) {
    forall k | lo <= k < |objects| && objects[k].parent == parent ::
      objects[k].entryOffset >= 0 && OnWalk(data, off, objects[k].entryOffset)
  }

  lemma OnWalkBefore(data: seq<byte>, off: nat, objects: seq<Obj>, lo: nat, parent: nat)
    requires off + ENTRY <= |data| && data[off] != 0
    requires StopsOnWalk(objects, lo, parent, data, off + EntrySize(data, off))
    ensures StopsOnWalk(objects, lo, parent, data, off)
  {
  }

  /** Every child found in a directory has its entry set at a stop of the walk. */
  lemma {:induction false} ChildrenOnWalk(v: Volume, w: Walk, parent: nat, path: seq<byte>, data: seq<byte>, off: nat)
    requires v.Valid() && ParseDir(v, w, parent, path, data, off).Ok?
    requires parent < |w.objects| && Ordered(w.objects) && off % ENTRY == 0
    ensures StopsOnWalk(ParseDir(v, w, parent, path, data, off).value.objects, |w.objects|, parent, data, off)
    decreases v.HeapSet() - w.visited, |data| - off
  {
    hide NextEntry, ReadSet, ReadAll, SubtreesRead, ChildrenRead, OnWalk;
    NextSize(v, parent, path, data, off);
    match NextEntry(v, parent, path, data, off)
    case End =>
    case Skip(next) =>
      ChildrenOnWalk(v, w, parent, path, data, next);
      OnWalkBefore(data, off, ParseDir(v, w, parent, path, data, off).value.objects, |w.objects|, parent);
    case Found(o, next) =>
      FoundIsRead(v, parent, path, data, off);
      var w1 := w.(objects := w.objects + [o]);
      var mid := w1;
      if o.kind == DirectoryKind {
        var w2 := w1.(visited := w1.visited + {o.clusters[0]});
        assert o.clusters[0] in v.HeapSet() - w.visited;
        ParseGrows(v, w2, |w.objects|, o.path, ReadAll(v, o.clusters), 0);
        mid := ParseDir(v, w2, |w.objects|, o.path, ReadAll(v, o.clusters), 0).value;
      }
      ChildrenOnWalk(v, mid, parent, path, data, next);
      ParseGrows(v, mid, parent, path, data, next);
      var all := ParseDir(v, mid, parent, path, data, next).value.objects;
      OnWalkBefore(data, off, all, |mid.objects|, parent);
      LastStop(w.objects, o, mid.objects, all, parent, data, off);
  }

  lemma LastStop(before: seq<Obj>, o: Obj, mid: seq<Obj>, all: seq<Obj>, parent: nat, data: seq<byte>, off: nat)
    requires parent < |before| && before + [o] <= mid <= all
    requires o.entryOffset == off && off + ENTRY <= |data| && data[off] != 0
    requires forall k | |before| < k < |mid| :: mid[k].parent >= |before|
    requires StopsOnWalk(all, |mid|, parent, data, off)
    ensures StopsOnWalk(all, |before|, parent, data, off)
  {
    assert forall k | |before| < k < |mid| :: all[k] == mid[k];
    assert all[|before|] == o;
  }
}
