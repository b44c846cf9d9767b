/** The root directory under relayout: system entries are found again, pointing to the new runs. */
module ExfatRoot {
  import opened Bytes
  import opened ExfatVolume
  import opened ExfatDirectory
  import opened ExfatScan
  import opened ExfatTree
  import opened ExfatManifest
  import opened ExfatMeaning
  import opened Wrappers

  /** An active system entry: the allocation bitmap or the up-case table. */
  predicate ActiveEntry(root: seq<byte>, off: int, kind: Kind) {
    && off >= 0 && off % ENTRY == 0 && off + ENTRY <= |root|
    && if kind == BitmapKind then root[off] == BITMAP_ENTRY && !Bit(root[off + 1], 0) else root[off] == UPCASE_ENTRY
  }

  /** What finding the system entries says about them. */
  ghost predicate SystemFound(v: Volume, root: seq<byte>, s: System)
    requires v.Valid()
  {
    && (s.bitmapOffset != NONE ==> EntryRead(v, root, s.bitmapOffset, BitmapKind, s.bitmapLength, s.bitmapClusters))
    && (s.upcaseOffset != NONE ==> EntryRead(v, root, s.upcaseOffset, UpcaseKind, s.upcaseLength, s.upcaseClusters))
  }

  ghost predicate EntryRead(v: Volume, root: seq<byte>, off: int, kind: Kind, length: nat, clusters: seq<nat>)
    requires v.Valid()
  {
    && ActiveEntry(root, off, kind)
    && length == U64(root, off + 24)
    && StreamClusters(v, root, off) == Ok(clusters)
  }

  lemma TakeEntryFound(v: Volume, root: seq<byte>, off: nat, s: System)
    requires v.Valid() && off % ENTRY == 0 && off + ENTRY <= |root| && SystemFound(v, root, s)
    requires TakeEntry(v, root, off, s).Ok?
    ensures var f := TakeEntry(v, root, off, s).value;
            && SystemFound(v, root, f)
            && (s.bitmapOffset != NONE ==> f.bitmapOffset == s.bitmapOffset)
            && (s.upcaseOffset != NONE ==> f.upcaseOffset == s.upcaseOffset)
  {
    hide StreamClusters, U64, Bit;
  }

  lemma {:induction false} SystemEntriesFound(v: Volume, root: seq<byte>, off: nat, s: System)
    requires v.Valid() && off % ENTRY == 0 && SystemFound(v, root, s) && SystemEntries(v, root, off, s).Ok?
    ensures var f := SystemEntries(v, root, off, s).value;
            && SystemFound(v, root, f) && f.bitmapOffset != NONE && f.upcaseOffset != NONE
            && f.bitmapClusters != [] && f.upcaseClusters != []
            && (s.bitmapOffset != NONE ==> f.bitmapOffset == s.bitmapOffset)
            && (s.upcaseOffset != NONE ==> f.upcaseOffset == s.upcaseOffset)
    decreases |root| - off
  {
    hide TakeEntry, SystemFound;
    if off + ENTRY <= |root| && root[off] != 0 {
      TakeEntryFound(v, root, off, s);
      SystemEntriesFound(v, root, off + ENTRY, TakeEntry(v, root, off, s).value);
    }
  }

  /** The system entries of a relaid root: same places and lengths, clusters moved. */
  function MovedSystem(s: System, bitmap: seq<nat>, upcase: seq<nat>): System {
    s.(bitmapClusters := if s.bitmapOffset == NONE then s.bitmapClusters else bitmap,
       upcaseClusters := if s.upcaseOffset == NONE then s.upcaseClusters else upcase)
  }

  /** root2 agrees with root on every byte the system-entry search looks at. */
  ghost predicate SearchAgrees(root: seq<byte>, root2: seq<byte>) {
    && |root2| == |root|
    && (forall off | 0 <= off && off + ENTRY <= |root| && off % ENTRY == 0 :: root2[off] == root[off])
    && (forall off | 0 <= off && off + ENTRY <= |root| && off % ENTRY == 0 && root[off] == BITMAP_ENTRY ::
          root2[off + 1] == root[off + 1])
  }

  /** At the place f recorded, the relaid root gives the same length and the new run. */
  ghost predicate ReadsAs(v2: Volume, root: seq<byte>, root2: seq<byte>, off: int, clusters: seq<nat>)
    requires v2.Valid() && |root2| == |root|
  {
    && off >= 0 && off + ENTRY <= |root|
    && StreamClusters(v2, root2, off) == Ok(clusters)
    && U64(root2, off + 24) == U64(root, off + 24)
  }

  lemma TakeEntryMoved(v: Volume, v2: Volume, root: seq<byte>, root2: seq<byte>,
                       off: nat, s: System, f: System, bitmap: seq<nat>, upcase: seq<nat>)
    requires v.Valid() && v2.Valid() && off % ENTRY == 0 && off + ENTRY <= |root| && SearchAgrees(root, root2)
    requires TakeEntry(v, root, off, s).Ok?
    requires ReadsAs(v2, root, root2, f.bitmapOffset, bitmap) && ReadsAs(v2, root, root2, f.upcaseOffset, upcase)
    requires var next := TakeEntry(v, root, off, s).value;
             && (next.bitmapOffset != NONE ==> f.bitmapOffset == next.bitmapOffset)
             && (next.upcaseOffset != NONE ==> f.upcaseOffset == next.upcaseOffset)
    ensures TakeEntry(v2, root2, off, MovedSystem(s, bitmap, upcase))
         == Ok(MovedSystem(TakeEntry(v, root, off, s).value, bitmap, upcase))
  {
    hide StreamClusters, U64, Bit;
  }

  lemma {:induction false} SystemEntriesMoved(v: Volume, v2: Volume, root: seq<byte>, root2: seq<byte>,
                                              off: nat, s: System, bitmap: seq<nat>, upcase: seq<nat>)
    requires v.Valid() && v2.Valid() && off % ENTRY == 0 && SearchAgrees(root, root2)
    requires SystemFound(v, root, s) && SystemEntries(v, root, off, s).Ok?
    requires bitmap != [] && upcase != []
    requires var f := SystemEntries(v, root, off, s).value;
             ReadsAs(v2, root, root2, f.bitmapOffset, bitmap) && ReadsAs(v2, root, root2, f.upcaseOffset, upcase)
    ensures SystemEntries(v2, root2, off, MovedSystem(s, bitmap, upcase))
         == Ok(MovedSystem(SystemEntries(v, root, off, s).value, bitmap, upcase))
    decreases |root| - off
  {
    hide TakeEntry, SystemFound, ReadsAs;
    var f := SystemEntries(v, root, off, s).value;
    if off + ENTRY <= |root| && root[off] != 0 {
      var next := TakeEntry(v, root, off, s).value;
      TakeEntryFound(v, root, off, s);
      SystemEntriesFound(v, root, off + ENTRY, next);
      TakeEntryMoved(v, v2, root, root2, off, s, f, bitmap, upcase);
      SystemEntriesMoved(v, v2, root, root2, off + ENTRY, next, bitmap, upcase);
    }
  }

  // ---- the bytes of the relaid root -------------------------------------------------------------

  lemma AlignedNotSystem(sys: set<nat>, off: nat)
    requires off % ENTRY == 0 && forall s | s in sys :: s % ENTRY == 0
    ensures !SystemByte(sys, off) && !SystemByte(sys, off + 1)
  {
  }

  lemma PatchKeepsType(set_: seq<byte>, n: nat, t: nat, k: nat)
    requires n >= 2 && |set_| == ENTRY * n && t < U32_LIMIT && ReadSet(set_, n).Ok?
    requires k % ENTRY == 0 && k + ENTRY <= |set_|
    ensures PatchSet(set_, n, t).Some?
    ensures PatchSet(set_, n, t).value[k] == set_[k]
    ensures set_[k] != STREAM_ENTRY ==> PatchSet(set_, n, t).value[k + 1] == set_[k + 1]
  {
    hide ReadSet, PatchSet;
    PatchSetReads(set_, n, t);
    PatchSetFrame(set_, n, t);
  }

  lemma ChildKeepsType(r: Record, base: seq<byte>, cur: seq<byte>, off: nat)
    requires SetInside(r, |base|) && r.target < U32_LIMIT && |cur| == |base| && r.entryOffset % ENTRY == 0
    requires ReadSet(SetOf(r, base), r.entryCount).Ok? && SetOf(r, cur) == PatchedSet(r, base)
    requires InSet(r, off) && off % ENTRY == 0 && off + ENTRY <= |base|
    ensures cur[off] == base[off]
    ensures base[off] != STREAM_ENTRY ==> cur[off + 1] == base[off + 1]
  {
    hide ReadSet, PatchSet;
    var k := off - r.entryOffset;
    assert SetOf(r, cur)[k] == cur[off] && SetOf(r, base)[k] == base[off];
    assert SetOf(r, cur)[k + 1] == cur[off + 1] && SetOf(r, base)[k + 1] == base[off + 1];
    PatchKeepsType(SetOf(r, base), r.entryCount, r.target, k);
  }

  /** A rewritten directory keeps every entry type, and the flag byte of entries that are not streams or files. */
  lemma RewrittenKeepsTypes(m: seq<Record>, dir: nat, base: seq<byte>, cur: seq<byte>, sys: set<nat>, off: nat)
    requires GoodChildren(m, dir, base) && forall k | 0 <= k < |m| :: m[k].target < U32_LIMIT
    requires Rewritten(m, dir, base, cur, sys) && off % ENTRY == 0 && off + ENTRY <= |base|
    requires forall s | s in sys :: s % ENTRY == 0
    requires forall i | 0 <= i < |m| && ChildOf(m, dir, i) :: m[i].entryOffset % ENTRY == 0
    ensures cur[off] == base[off]
    ensures base[off] == BITMAP_ENTRY ==> cur[off + 1] == base[off + 1]
  {
    hide ReadSet, PatchSet;
    AlignedNotSystem(sys, off);
    if i :| 0 <= i < |m| && ChildOf(m, dir, i) && InSet(m[i], off) {
      assert SetOf(m[i], cur) == PatchedSet(m[i], base);
      ChildKeepsType(m[i], base, cur, off);
    } else {
      assert NoChildAt(m, dir, off);
      assert NoChildAt(m, dir, off + 1);
    }
  }

  /** A system entry outside every entry set of the directory's children. */
  ghost predicate Outside(m: seq<Record>, dir: nat, s: nat) {
    forall i | 0 <= i < |m| && ChildOf(m, dir, i) ::
      m[i].entryOffset + ENTRY * m[i].entryCount <= s || s + ENTRY <= m[i].entryOffset
  }

  /** A system entry at a stop of the root walk lies outside every child's set. */
  lemma StopIsOutside(objects: seq<Obj>, targets: seq<nat>, m: seq<Record>, root: seq<byte>, s: nat)
    requires Describes(m, objects, targets) && ChildrenRead(objects, ROOT_INDEX, root, 0)
    requires StopsOnWalk(objects, 0, ROOT_INDEX, root, 0)
    requires s + ENTRY <= |root| && OnWalk(root, 0, s) && root[s] != FILE_ENTRY
    ensures Outside(m, ROOT_INDEX, s)
  {
    hide ReadSet;
    forall i | 0 <= i < |m| && ChildOf(m, ROOT_INDEX, i)
      ensures m[i].entryOffset + ENTRY * m[i].entryCount <= s || s + ENTRY <= m[i].entryOffset
    {
      assert ChildAt(objects, ROOT_INDEX, i);
      var o := objects[i].entryOffset;
      if s < o { StopsApart(root, 0, s, o); } else if o < s { StopsApart(root, 0, o, s); }
    }
  }

  /** Writing a system entry's first cluster outside the children's sets keeps the rewriting. */
  lemma PutOutside(m: seq<Record>, dir: nat, base: seq<byte>, cur: seq<byte>, sys: set<nat>, s: nat, t: nat)
    requires GoodChildren(m, dir, base) && forall k | 0 <= k < |m| :: m[k].target < U32_LIMIT
    requires Rewritten(m, dir, base, cur, sys) && s + ENTRY <= |base| && t < U32_LIMIT
    requires Outside(m, dir, s)
    ensures Rewritten(m, dir, base, PutU32(cur, s + 20, t), sys + {s})
  {
    hide ReadSet, PatchSet, PatchedSet, PutU32;
    var next := PutU32(cur, s + 20, t);
    forall i | 0 <= i < |m| && ChildOf(m, dir, i)
      ensures SetOf(m[i], next) == SetOf(m[i], cur)
    {
      assert forall k | m[i].entryOffset <= k < m[i].entryOffset + ENTRY * m[i].entryCount :: next[k] == cur[k];
    }
    forall k | 0 <= k < |base| && NoChildAt(m, dir, k) && !SystemByte(sys + {s}, k) ensures next[k] == base[k] {
      assert !(s + 20 <= k < s + 24) by { assert s in sys + {s}; }
      assert !SystemByte(sys, k) by { assert forall x | x in sys :: x in sys + {s}; }
    }
  }

  /** Fields of a system entry other than its first cluster are kept; the first cluster is what was written. */
  lemma SystemFields(m: seq<Record>, dir: nat, base: seq<byte>, cur: seq<byte>, sys: set<nat>, s: nat)
    requires GoodChildren(m, dir, base) && forall k | 0 <= k < |m| :: m[k].target < U32_LIMIT
    requires Rewritten(m, dir, base, cur, sys) && s % ENTRY == 0 && s + ENTRY <= |base|
    requires Outside(m, dir, s) && forall x | x in sys :: x % ENTRY == 0
    ensures U64(cur, s + 24) == U64(base, s + 24) && U32(cur, s + 4) == U32(base, s + 4)
  {
    hide ReadSet, PatchSet, PatchedSet;
    forall k | s <= k < s + ENTRY && !(s + 20 <= k < s + 24) ensures cur[k] == base[k] {
      assert NoChildAt(m, dir, k);
      assert !SystemByte(sys, k);
    }
  }

  lemma ChildrenRewritten(m: seq<Record>, dir: nat, base: seq<byte>)
    requires GoodChildren(m, dir, base) && forall k | 0 <= k < |m| :: m[k].target < U32_LIMIT
    ensures PatchChildren(m, dir, base, 0).Some?
    ensures Rewritten(m, dir, base, PatchChildren(m, dir, base, 0).value, {})
  {
    hide ReadSet, PatchSet, PatchedSet;
    PatchChildrenExact(m, dir, base, base, 0);
  }

  /** The relaid root: children patched, and both system entries pointing to their targets. */
  lemma RootRewritten(objects: seq<Obj>, targets: seq<nat>, m: seq<Record>, root: seq<byte>, b: nat, u: nat)
    requires Describes(m, objects, targets) && |m| > 2 && (forall k | 0 <= k < |m| :: m[k].target < U32_LIMIT)
    requires objects[0].kind == BitmapKind && objects[1].kind == UpcaseKind && objects[2].kind == RootKind
    requires objects[0].sysOffset == b && objects[1].sysOffset == u
    requires ActiveEntry(root, b, BitmapKind) && ActiveEntry(root, u, UpcaseKind)
    requires GoodChildren(m, ROOT_INDEX, root) && Outside(m, ROOT_INDEX, b) && Outside(m, ROOT_INDEX, u)
    ensures PatchDirectory(m, ROOT_INDEX, root).Some?
    ensures var root2 := PatchDirectory(m, ROOT_INDEX, root).value;
            && Rewritten(m, ROOT_INDEX, root, root2, {b, u})
            && U32(root2, b + 20) == targets[0] && U32(root2, u + 20) == targets[1]
  {
    hide GoodChildren, Rewritten, Outside, PatchChildren, FindKind, PutU32;
    ChildrenRewritten(m, ROOT_INDEX, root);
    var p := PatchChildren(m, ROOT_INDEX, root, 0).value;
    FirstOfKind(m);
    PutOutside(m, ROOT_INDEX, root, p, {}, b, targets[0]);
    PutOutside(m, ROOT_INDEX, root, PutU32(p, b + 20, targets[0]), {} + {b}, u, targets[1]);
    assert {} + {b} + {u} == {b, u};
    TwoFields(p, b, targets[0], u, targets[1]);
  }

  lemma FirstOfKind(m: seq<Record>)
    requires |m| > 2 && m[0].kind == BitmapKind && m[1].kind == UpcaseKind
    ensures FindKind(m, BitmapKind, 0) == Some(m[0]) && FindKind(m, UpcaseKind, 0) == Some(m[1])
  {
  }

  lemma TwoFields(p: seq<byte>, b: nat, s: nat, u: nat, t: nat)
    requires b % ENTRY == 0 && u % ENTRY == 0 && b != u && b + ENTRY <= |p| && u + ENTRY <= |p|
    requires s < U32_LIMIT && t < U32_LIMIT
    ensures var r := PutU32(PutU32(p, b + 20, s), u + 20, t); U32(r, b + 20) == s && U32(r, u + 20) == t
  {
    var p1 := PutU32(p, b + 20, s);
    var r := PutU32(p1, u + 20, t);
    assert U32(r, b + 20) == U32(p1, b + 20);
  }
}
