/** The relayout manifest and what it makes of directories, the allocation bitmap and the FAT. */
module ExfatManifest {
  import opened Bytes
  import opened ExfatDirectory
  import opened ExfatScan
  import opened Wrappers

  datatype Record = Record(
    kind: Kind,
    target: nat,
    staged: nat,
    clusters: nat,
    parent: int,
    entryOffset: int,
    entryCount: nat,
    sysOffset: int,
    dataLength: nat)
  {
    predicate Directory() {
      kind == DirectoryKind || kind == RootKind
    }

    predicate Named() {
      kind == DirectoryKind || kind == FileKind
    }
  }

  /** Clusters held by the first n objects. */
  function ClusterTotal(objects: seq<Obj>, n: nat): nat
    requires n <= |objects|
  {
    if n == 0 then 0 else ClusterTotal(objects, n - 1) + |objects[n - 1].clusters|
  }

  /** The manifest: object i goes to its target and is staged after the objects before it. */
  function Populate(objects: seq<Obj>, targets: seq<nat>, workspace: nat): (m: seq<Record>)
    requires |targets| == |objects|
    ensures |m| == |objects|
    ensures forall i | 0 <= i < |m| :: m[i] == RecordOf(objects[i], targets[i], workspace + ClusterTotal(objects, i))
  {
    seq(|objects|, i requires 0 <= i < |objects| =>
      RecordOf(objects[i], targets[i], workspace + ClusterTotal(objects, i)))
  }

  function RecordOf(o: Obj, target: nat, staged: nat): Record {
    Record(o.kind, target, staged, |o.clusters|, o.parent, o.entryOffset, o.entryCount, o.sysOffset, o.dataLength)
  }

  /** The manifest describes these objects and targets; where they are staged is left open. */
  ghost predicate Describes(m: seq<Record>, objects: seq<Obj>, targets: seq<nat>) {
    && |m| == |objects| == |targets|
    && forall i | 0 <= i < |m| :: m[i] == RecordOf(objects[i], targets[i], m[i].staged)
  }

  predicate ChildOf(m: seq<Record>, dir: nat, i: nat)
    requires i < |m|
  {
    m[i].parent == dir && m[i].Named()
  }

  predicate SetInside(r: Record, length: nat) {
    r.entryCount >= 2 && r.entryOffset >= 0 && r.entryOffset + ENTRY * r.entryCount <= length
  }

  function SetOf(r: Record, payload: seq<byte>): seq<byte>
    requires SetInside(r, |payload|)
  {
    payload[r.entryOffset..r.entryOffset + ENTRY * r.entryCount]
  }

  function Splice(payload: seq<byte>, off: nat, piece: seq<byte>): (r: seq<byte>)
    requires off + |piece| <= |payload|
    ensures |r| == |payload|
    ensures forall k | 0 <= k < |payload| :: r[k] == if off <= k < off + |piece| then piece[k - off] else payload[k]
  {
    payload[..off] + piece + payload[off + |piece|..]
  }

  /** Patching the entry sets of the directory's children, from record i on. */
  function PatchChildren(m: seq<Record>, dir: nat, payload: seq<byte>, i: nat): (r: Option<seq<byte>>)
    requires i <= |m| && forall k | 0 <= k < |m| :: m[k].target < U32_LIMIT
    ensures r.Some? ==> |r.value| == |payload|
    decreases |m| - i
  {
    if i == |m| then Some(payload)
    else if !ChildOf(m, dir, i) then PatchChildren(m, dir, payload, i + 1)
    else if !SetInside(m[i], |payload|) then None
    else
      match PatchSet(SetOf(m[i], payload), m[i].entryCount, m[i].target)
      case None => None
      case Some(p) => PatchChildren(m, dir, Splice(payload, m[i].entryOffset, p), i + 1)
  }

  function FindKind(m: seq<Record>, kind: Kind, i: nat): (r: Option<Record>)
    requires i <= |m|
    ensures r.Some? ==> r.value in m && r.value.kind == kind
    decreases |m| - i
  {
    if i == |m| then None else if m[i].kind == kind then Some(m[i]) else FindKind(m, kind, i + 1)
  }

  predicate EntryInside(off: int, length: nat) {
    off >= 0 && off + ENTRY <= length
  }

  /** The canonical payload of a directory, from its staged bytes. */
  function PatchDirectory(m: seq<Record>, dir: nat, payload: seq<byte>): (r: Option<seq<byte>>)
    requires dir < |m| && forall k | 0 <= k < |m| :: m[k].target < U32_LIMIT
    ensures r.Some? ==> |r.value| == |payload|
  {
    match PatchChildren(m, dir, payload, 0)
    case None => None
    case Some(p) =>
      if m[dir].kind != RootKind then Some(p)
      else
        var bitmap := FindKind(m, BitmapKind, 0);
        var upcase := FindKind(m, UpcaseKind, 0);
        if bitmap.None? || upcase.None?
           || !EntryInside(bitmap.value.sysOffset, |p|) || !EntryInside(upcase.value.sysOffset, |p|) then None
        else
          var p1 := PutU32(p, bitmap.value.sysOffset + 20, bitmap.value.target);
          Some(PutU32(p1, upcase.value.sysOffset + 20, upcase.value.target))
  }

  // ---- characterising the children patch --------------------------------------------------------

  predicate InSet(r: Record, k: int) {
    r.entryOffset <= k < r.entryOffset + ENTRY * r.entryCount
  }

  /** The children's entry sets lie inside the payload, read well, and do not overlap. */
  ghost predicate GoodChildren(m: seq<Record>, dir: nat, payload: seq<byte>) {
    && (forall i | 0 <= i < |m| && ChildOf(m, dir, i) ::
          SetInside(m[i], |payload|) && ReadSet(SetOf(m[i], payload), m[i].entryCount).Ok?)
    && (forall i, j, k | 0 <= i < j < |m| && ChildOf(m, dir, i) && ChildOf(m, dir, j) && InSet(m[i], k) ::
         !InSet(m[j], k))
  }

  /** cur is base with the sets of the children below n patched, and no other byte changed. */
  ghost predicate PatchedUpTo(m: seq<Record>, dir: nat, base: seq<byte>, cur: seq<byte>, n: nat)
    requires GoodChildren(m, dir, base) && forall k | 0 <= k < |m| :: m[k].target < U32_LIMIT
  {
    && |cur| == |base|
    && (forall i | 0 <= i < |m| && ChildOf(m, dir, i) ::
          SetOf(m[i], cur) == if i < n then PatchedSet(m[i], base) else SetOf(m[i], base))
    && (forall k | 0 <= k < |base| && NoChildAt(m, dir, k) :: cur[k] == base[k])
  }

  ghost predicate NoChildAt(m: seq<Record>, dir: nat, k: nat) {
    forall i | 0 <= i < |m| && ChildOf(m, dir, i) :: !InSet(m[i], k)
  }

  ghost function PatchedSet(r: Record, base: seq<byte>): (p: seq<byte>)
    requires SetInside(r, |base|) && r.target < U32_LIMIT && ReadSet(SetOf(r, base), r.entryCount).Ok?
    ensures |p| == ENTRY * r.entryCount
  {
    PatchSetReads(SetOf(r, base), r.entryCount, r.target);
    PatchSet(SetOf(r, base), r.entryCount, r.target).value
  }

  lemma SpliceElsewhere(r: Record, cur: seq<byte>, off: nat, p: seq<byte>)
    requires SetInside(r, |cur|) && off + |p| <= |cur|
    requires forall k | off <= k < off + |p| :: !InSet(r, k)
    ensures SetOf(r, Splice(cur, off, p)) == SetOf(r, cur)
  {
    var next := Splice(cur, off, p);
    forall k | r.entryOffset <= k < r.entryOffset + ENTRY * r.entryCount
      ensures next[k] == cur[k]
    {
      assert InSet(r, k);
    }
  }

  lemma PatchOneChild(m: seq<Record>, dir: nat, base: seq<byte>, cur: seq<byte>, n: nat)
    requires n < |m| && forall k | 0 <= k < |m| :: m[k].target < U32_LIMIT
    requires GoodChildren(m, dir, base) && PatchedUpTo(m, dir, base, cur, n) && ChildOf(m, dir, n)
    ensures PatchedUpTo(m, dir, base, Splice(cur, m[n].entryOffset, PatchedSet(m[n], base)), n + 1)
  {
    var p := PatchedSet(m[n], base);
    var off := m[n].entryOffset;
    var next := Splice(cur, off, p);
    forall i | 0 <= i < |m| && ChildOf(m, dir, i)
      ensures SetOf(m[i], next) == if i < n + 1 then PatchedSet(m[i], base) else SetOf(m[i], base)
    {
      if i == n {
        assert SetOf(m[n], next) == p;
      } else {
        forall k | off <= k < off + |p| ensures !InSet(m[i], k) {
          assert InSet(m[n], k);
        }
        SpliceElsewhere(m[i], cur, off, p);
      }
    }
    forall k | 0 <= k < |base| && NoChildAt(m, dir, k) ensures next[k] == base[k] {
      assert !InSet(m[n], k);
    }
  }

  lemma SkipOneRecord(m: seq<Record>, dir: nat, base: seq<byte>, cur: seq<byte>, n: nat)
    requires n < |m| && forall k | 0 <= k < |m| :: m[k].target < U32_LIMIT
    requires GoodChildren(m, dir, base) && PatchedUpTo(m, dir, base, cur, n) && !ChildOf(m, dir, n)
    ensures PatchedUpTo(m, dir, base, cur, n + 1)
  {
  }

  lemma NextChild(m: seq<Record>, dir: nat, base: seq<byte>, cur: seq<byte>, n: nat)
    requires n < |m| && forall k | 0 <= k < |m| :: m[k].target < U32_LIMIT
    requires GoodChildren(m, dir, base) && PatchedUpTo(m, dir, base, cur, n) && ChildOf(m, dir, n)
    ensures SetInside(m[n], |cur|)
    ensures PatchSet(SetOf(m[n], cur), m[n].entryCount, m[n].target) == Some(PatchedSet(m[n], base))
  {
    assert SetOf(m[n], cur) == SetOf(m[n], base);
    PatchSetReads(SetOf(m[n], base), m[n].entryCount, m[n].target);
  }

  lemma OneStep(m: seq<Record>, dir: nat, base: seq<byte>, cur: seq<byte>, n: nat) returns (next: seq<byte>)
    requires n < |m| && forall k | 0 <= k < |m| :: m[k].target < U32_LIMIT
    requires GoodChildren(m, dir, base) && PatchedUpTo(m, dir, base, cur, n)
    ensures PatchedUpTo(m, dir, base, next, n + 1)
    ensures PatchChildren(m, dir, cur, n) == PatchChildren(m, dir, next, n + 1)
  {
    if ChildOf(m, dir, n) {
      NextChild(m, dir, base, cur, n);
      PatchOneChild(m, dir, base, cur, n);
      next := Splice(cur, m[n].entryOffset, PatchedSet(m[n], base));
    } else {
      SkipOneRecord(m, dir, base, cur, n);
      next := cur;
    }
  }

  /** Patching all children patches exactly their entry sets. */
  lemma {:induction false} PatchChildrenExact(m: seq<Record>, dir: nat, base: seq<byte>, cur: seq<byte>, n: nat)
    requires n <= |m| && forall k | 0 <= k < |m| :: m[k].target < U32_LIMIT
    requires GoodChildren(m, dir, base) && PatchedUpTo(m, dir, base, cur, n)
    ensures PatchChildren(m, dir, cur, n).Some?
    ensures PatchedUpTo(m, dir, base, PatchChildren(m, dir, cur, n).value, |m|)
    decreases |m| - n
  {
    if n < |m| {
      var next := OneStep(m, dir, base, cur, n);
      PatchChildrenExact(m, dir, base, next, n + 1);
    }
  }
}
