/** Building the canonical metadata in place: directory payloads, the bitmap, the FAT, the manifest
    and its workspace. */
module ExfatBuilder {
  import opened Bytes
  import opened Checksum
  import opened ExfatVolume
  import opened ExfatDirectory
  import opened ExfatScan
  import opened ExfatManifest
  import opened ExfatCanonical
  import opened Wrappers

  method StoreU16(a: array<byte>, o: nat, v: int)
    requires o + 2 <= a.Length && 0 <= v < U16_LIMIT
    modifies a
    ensures a[..] == PutU16(old(a[..]), o, v)
  {
    a[o] := v % 256;
    a[o + 1] := v / 256;
  }

  method StoreU32(a: array<byte>, o: nat, v: int)
    requires o + 4 <= a.Length && 0 <= v < U32_LIMIT
    modifies a
    ensures a[..] == PutU32(old(a[..]), o, v)
  {
    a[o] := LeByte(v, 0);
    a[o + 1] := LeByte(v, 1);
    a[o + 2] := LeByte(v, 2);
    a[o + 3] := LeByte(v, 3);
  }

  // ---- a directory payload ----------------------------------------------------------------------

  /** Patching a set inside its directory is patching the set and splicing it back. */
  lemma SplicePatch(payload: seq<byte>, off: nat, n: nat, t: nat, target: nat)
    requires n >= 2 && off + ENTRY * n <= |payload| && target < U32_LIMIT
    requires FirstStream(payload[off..off + ENTRY * n], n, 1) == Some(t)
    ensures t + ENTRY <= ENTRY * n
    ensures var p1 := PutU32(payload, off + t + 20, target);
            var p2 := p1[off + t + 1 := NoFatChain(p1[off + t + 1])];
            var p3 := PutU16(p2, off + 2, EntrySum(p2[off..off + ENTRY * n], ENTRY * n));
            PatchSet(payload[off..off + ENTRY * n], n, target).Some?
            && p3 == Splice(payload, off, PatchSet(payload[off..off + ENTRY * n], n, target).value)
  {
    hide FirstStream, EntrySum, NoFatChain;
    var set_ := payload[off..off + ENTRY * n];
    var p1 := PutU32(payload, off + t + 20, target);
    var q1 := PutU32(set_, t + 20, target);
    assert p1[off..off + ENTRY * n] == q1;
    var p2 := p1[off + t + 1 := NoFatChain(p1[off + t + 1])];
    var q2 := q1[t + 1 := NoFatChain(q1[t + 1])];
    assert p2[off..off + ENTRY * n] == q2;
    var q3 := PutU16(q2, 2, EntrySum(q2, |q2|));
    assert PatchSet(set_, n, target) == Some(q3);
    var p3 := PutU16(p2, off + 2, EntrySum(q2, |q2|));
    forall k | 0 <= k < |payload| ensures p3[k] == Splice(payload, off, q3)[k] { }
  }

  /** The search for the stream extension of a set; n when there is none. */
  method FindStream(payload: array<byte>, off: nat, n: nat) returns (entry: nat)
    requires n >= 2 && off + ENTRY * n <= payload.Length
    ensures 1 <= entry <= n
    ensures FirstStream(payload[off..off + ENTRY * n], n, 1) == if entry == n then None else Some(ENTRY * entry)
  {
    ghost var set_ := payload[off..off + ENTRY * n];
    entry := 1;
    while entry < n && payload[off + ENTRY * entry] != STREAM_ENTRY
      invariant 1 <= entry <= n
      invariant FirstStream(set_, n, entry) == FirstStream(set_, n, 1)
      decreases n - entry
    {
      entry := entry + 1;
    }
  }

  /** One child's entry set is patched where it stands. */
  method PatchChild(payload: array<byte>, off: nat, n: nat, target: nat) returns (ok: bool)
    requires n >= 2 && off + ENTRY * n <= payload.Length && target < U32_LIMIT
    modifies payload
    ensures var p := PatchSet(old(payload[off..off + ENTRY * n]), n, target);
            ok == p.Some? && (ok ==> payload[..] == Splice(old(payload[..]), off, p.value))
  {
    hide EntrySum, NoFatChain, PatchSet, FirstStream, PutU32, PutU16;
    ghost var before := payload[..];
    assert before[off..off + ENTRY * n] == payload[off..off + ENTRY * n];
    var entry := FindStream(payload, off, n);
    NoStreamNoPatch(before[off..off + ENTRY * n], n, target);
    if entry == n {
      return false;
    }
    var t := ENTRY * entry;
    SplicePatch(before, off, n, t, target);
    StoreU32(payload, off + t + 20, target);
    payload[off + t + 1] := NoFatChain(payload[off + t + 1]);
    ghost var p2 := payload[..];
    assert p2[off..off + ENTRY * n] == payload[off..off + ENTRY * n];
    var sum := EntryChecksum(payload[off..off + ENTRY * n]);
    StoreU16(payload, off + 2, sum);
    return true;
  }

  lemma NoStreamNoPatch(set_: seq<byte>, n: nat, target: nat)
    requires n >= 2 && |set_| == ENTRY * n && target < U32_LIMIT
    ensures PatchSet(set_, n, target).Some? == FirstStream(set_, n, 1).Some?
  {
  }

  method FindRecord(m: seq<Record>, kind: Kind) returns (r: Option<Record>)
    ensures r == FindKind(m, kind, 0)
  {
    for i := 0 to |m|
      invariant FindKind(m, kind, i) == FindKind(m, kind, 0)
    {
      if m[i].kind == kind { return Some(m[i]); }
    }
    return None;
  }

  /** The children of a directory are patched one record after the other. */
  method PatchChildSets(m: seq<Record>, dir: nat, payload: array<byte>) returns (ok: bool)
    requires forall k | 0 <= k < |m| :: m[k].target < U32_LIMIT
    modifies payload
    ensures var p := PatchChildren(m, dir, old(payload[..]), 0); ok == p.Some? && (ok ==> payload[..] == p.value)
  {
    hide PatchSet;
    ghost var before := payload[..];
    for i := 0 to |m|
      invariant PatchChildren(m, dir, payload[..], i) == PatchChildren(m, dir, before, 0)
    {
      if ChildOf(m, dir, i) {
        if !SetInside(m[i], payload.Length) {
          return false;
        }
        ghost var cur := payload[..];
        assert SetOf(m[i], cur) == payload[m[i].entryOffset..m[i].entryOffset + ENTRY * m[i].entryCount];
        var done := PatchChild(payload, m[i].entryOffset, m[i].entryCount, m[i].target);
        if !done {
          return false;
        }
      }
    }
    return true;
  }

  /** The directory's children are patched, then the root's system entries. */
  method PatchDirectoryPayload(m: seq<Record>, dir: nat, payload: array<byte>) returns (ok: bool)
    requires dir < |m| && forall k | 0 <= k < |m| :: m[k].target < U32_LIMIT
    modifies payload
    ensures var p := PatchDirectory(m, dir, old(payload[..]));
            ok == p.Some? && (ok ==> payload[..] == p.value)
  {
    hide PatchChildren, FindKind, PutU32;
    ok := PatchChildSets(m, dir, payload);
    if !ok {
      return false;
    }
    if m[dir].kind == RootKind {
      var bitmap := FindRecord(m, BitmapKind);
      var upcase := FindRecord(m, UpcaseKind);
      if bitmap.None? || upcase.None?
         || !EntryInside(bitmap.value.sysOffset, payload.Length)
            || !EntryInside(upcase.value.sysOffset, payload.Length) {
        return false;
      }
      StoreU32(payload, bitmap.value.sysOffset + 20, bitmap.value.target);
      StoreU32(payload, upcase.value.sysOffset + 20, upcase.value.target);
    }
    return true;
  }

  // ---- bitmap and FAT ---------------------------------------------------------------------------

  method BuildExpectedBitmap(m: seq<Record>, clusterCount: nat, length: nat) returns (ok: bool, bitmap: array<byte>)
    ensures fresh(bitmap)
    ensures var e := ExpectedBitmap(m, clusterCount, length); ok == e.Some? && (ok ==> bitmap[..] == e.value)
  {
    hide SetCluster;
    bitmap := new byte[length](_ => 0);
    assert bitmap[..] == Zeros(length);
    for i := 0 to |m|
      invariant BitmapFrom(m, clusterCount, bitmap[..], i) == ExpectedBitmap(m, clusterCount, length)
    {
      if m[i].target < 2 || m[i].target + m[i].clusters > clusterCount + 2 {
        return false, bitmap;
      }
      for j := 0 to m[i].clusters
        invariant bitmap.Length == length
        invariant
          (match SetRun(bitmap[..], m[i].target + j, m[i].clusters - j)
           case None => None
           case Some(b) => BitmapFrom(m, clusterCount, b, i + 1)) == ExpectedBitmap(m, clusterCount, length)
      {
        if m[i].target + j - 2 >= 8 * length {
          return false, bitmap;
        }
        BitmapSet(bitmap, m[i].target + j);
      }
    }
    return true, bitmap;
  }

  method BuildFinalFat(old_: seq<byte>, m: seq<Record>) returns (ok: bool, fat: array<byte>)
    requires forall k | 0 <= k < |m| :: m[k].target + m[k].clusters < EOC
    ensures fresh(fat)
    ensures var f := FinalFat(m, old_); ok == f.Some? && (ok ==> fat[..] == f.value)
  {
    hide LinkRun;
    fat := EmptyFat(old_);
    for i := 0 to |m|
      invariant LinkFrom(m, fat[..], i) == FinalFat(m, old_)
    {
      if SystemKind(m[i].kind) {
        var linked := LinkRecord(fat, m[i].target, m[i].clusters);
        if !linked {
          return false, fat;
        }
      }
    }
    return true, fat;
  }

  /** A zeroed table that keeps the first two entries. */
  method EmptyFat(old_: seq<byte>) returns (fat: array<byte>)
    ensures fresh(fat) && fat[..]
            == (if |old_| >= 8 then old_[..8] else []) + Zeros(|old_| - if |old_| >= 8 then 8 else 0)
  {
    fat := new byte[|old_|](_ => 0);
    if |old_| >= 8 {
      for k := 0 to 8
        invariant forall i | 0 <= i < fat.Length :: fat[i] == if i < k then old_[i] else 0
      {
        fat[k] := old_[k];
      }
    }
  }

  /** Linking one object's run, entry by entry. */
  method LinkRecord(fat: array<byte>, start: nat, n: nat) returns (ok: bool)
    requires start + n < EOC
    modifies fat
    ensures var f := LinkRun(old(fat[..]), start, n); ok == f.Some? && (ok ==> fat[..] == f.value)
  {
    hide PutU32;
    for j := 0 to n
      invariant LinkRun(fat[..], start + j, n - j) == LinkRun(old(fat[..]), start, n)
    {
      var cluster := start + j;
      if 4 * cluster + 4 > fat.Length {
        return false;
      }
      StoreU32(fat, 4 * cluster, if j + 1 < n then cluster + 1 else EOC);
    }
    return true;
  }

  // ---- manifest and workspace -------------------------------------------------------------------

  method PopulateManifest(objects: seq<Obj>, targets: seq<nat>, workspace: nat) returns (m: seq<Record>)
    requires |targets| == |objects|
    ensures m == Populate(objects, targets, workspace)
  {
    hide ClusterTotal, Populate;
    ghost var all := Populate(objects, targets, workspace);
    m := [];
    var staged := workspace;
    StagedNext(objects, 0);
    for i := 0 to |objects|
      invariant m == all[..i] && staged == workspace + ClusterTotal(objects, i)
    {
      StagedNext(objects, i + 1);
      m := m + [RecordOf(objects[i], targets[i], staged)];
      staged := staged + |objects[i].clusters|;
    }
  }

  lemma StagedNext(objects: seq<Obj>, n: nat)
    requires n <= |objects|
    ensures ClusterTotal(objects, n) == if n == 0 then 0 else ClusterTotal(objects, n - 1) + |objects[n - 1].clusters|
  {
  }

  predicate Unusable(v: Volume, bitmap: seq<byte>, cluster: nat)
    requires v.Valid() && v.InHeap(cluster)
  {
    Allocated(bitmap, cluster) || v.FatGet(cluster) == BAD_CLUSTER
  }

  /** The last n clusters of the heap are free, good, and above the final cluster. */
  ghost predicate TerminalRun(v: Volume, bitmap: seq<byte>, finalCluster: nat, n: nat, start: nat)
    requires v.Valid()
  {
    && 0 < n <= v.clusterCount && start == v.clusterCount + 2 - n && start > finalCluster
    && forall c: nat | start <= c < v.clusterCount + 2 && v.InHeap(c) :: !Unusable(v, bitmap, c)
  }

  /** The workspace search walks down from the top of the heap; it answers the terminal run exactly
      when there is one. */
  method TerminalWorkspace(v: Volume, bitmap: seq<byte>, finalCluster: nat, needed: nat) returns (r: Option<nat>)
    requires v.Valid()
    ensures r.Some? ==> TerminalRun(v, bitmap, finalCluster, needed, r.value)
    ensures r.None? ==> forall start :: !TerminalRun(v, bitmap, finalCluster, needed, start)
  {
    if needed == 0 || needed > v.clusterCount {
      return None;
    }
    var maxCluster := v.clusterCount + 1;
    var run: nat := 0;
    var cluster: nat := maxCluster;
    while cluster >= 2
      invariant 1 <= cluster <= maxCluster && run == maxCluster - cluster && run < needed
      invariant forall c: nat | cluster < c < v.clusterCount + 2 && v.InHeap(c) :: !Unusable(v, bitmap, c)
      decreases cluster
    {
      if Unusable(v, bitmap, cluster) {
        break;
      }
      run := run + 1;
      if run >= needed || cluster == 2 {
        break;
      }
      cluster := cluster - 1;
    }
    if run < needed {
      return None;
    }
    var start := maxCluster - needed + 1;
    if start <= finalCluster {
      return None;
    }
    return Some(start);
  }
}
