/** A condition the engine relies on and does not check, and what happens without it: system entries lie outside the
    entry sets of the root directory. */
module ExfatInside {
  import opened Bytes
  import opened Checksum
  import opened ExfatVolume
  import opened ExfatDirectory
  import opened ExfatScan
  import opened ExfatTree
  import opened ExfatManifest
  import opened ExfatRoot
  import opened ExfatMeaning
  import opened ExfatRelaid
  import opened Wrappers

  /** The cluster field of a system entry of the set, which is not one of the entries that reading a set looks at. */
  predicate SystemField(set_: seq<byte>, k: int)
  {
    var t := k - k % ENTRY;
    ENTRY <= t && t + ENTRY <= |set_| && (set_[t] == BITMAP_ENTRY || set_[t] == UPCASE_ENTRY) && 20 <= k % ENTRY < 24
  }

  /** Rewriting the cluster fields of system entries inside a well-read set leaves the set readable exactly when the
      set's checksum happens to stay the same. */
  lemma SystemFieldsInSet(set_: seq<byte>, r: seq<byte>, n: nat)
    requires n >= 2 && |set_| == |r| == ENTRY * n && ReadSet(set_, n).Ok?
    requires forall k | 0 <= k < |set_| && !SystemField(set_, k) :: r[k] == set_[k]
    ensures if EntrySum(r, |r|) == EntrySum(set_, |set_|) then ReadSet(r, n).Ok?
            else ReadSet(r, n) == Err("exFAT file entry-set checksum is invalid")
  {
    hide EntrySum, Secondaries;
    forall k | 1 <= k < n
      ensures set_[ENTRY * k] == r[ENTRY * k]
      ensures set_[ENTRY * k] == STREAM_ENTRY ==> r[ENTRY * k..ENTRY * k + 32] == set_[ENTRY * k..ENTRY * k + 32]
      ensures set_[ENTRY * k] == STREAM_ENTRY ==> set_[ENTRY * k + 3] == r[ENTRY * k + 3]
      ensures set_[ENTRY * k] == NAME_ENTRY ==> set_[ENTRY * k..ENTRY * k + 32] == r[ENTRY * k..ENTRY * k + 32]
    {
      SameEntry(set_, r, k);
    }
    FirstBytes(set_, r);
    SecondariesAgree(set_, r, n, 1, NoSecondary);
    SecondariesStream(set_, n, 1, NoSecondary);
    StreamAlike(set_, r, n);
  }

  lemma FirstBytes(set_: seq<byte>, r: seq<byte>)
    requires |set_| == |r| >= ENTRY && forall k | 0 <= k < |set_| && !SystemField(set_, k) :: r[k] == set_[k]
    ensures forall k | 0 <= k < ENTRY :: r[k] == set_[k]
  {
  }

  lemma SameEntry(set_: seq<byte>, r: seq<byte>, k: nat)
    requires |set_| == |r| && 1 <= k && ENTRY * k + ENTRY <= |set_|
    requires forall k | 0 <= k < |set_| && !SystemField(set_, k) :: r[k] == set_[k]
    ensures set_[ENTRY * k] == r[ENTRY * k]
    ensures set_[ENTRY * k] != BITMAP_ENTRY && set_[ENTRY * k] != UPCASE_ENTRY ==>
              r[ENTRY * k..ENTRY * k + 32] == set_[ENTRY * k..ENTRY * k + 32] && r[ENTRY * k + 3] == set_[ENTRY * k + 3]
  {
    assert !SystemField(set_, ENTRY * k);
    if set_[ENTRY * k] != BITMAP_ENTRY && set_[ENTRY * k] != UPCASE_ENTRY {
      forall j | ENTRY * k <= j < ENTRY * k + ENTRY ensures r[j] == set_[j] {
        assert j - j % ENTRY == ENTRY * k;
      }
    }
  }

  /** A stream extension that agrees byte by byte reads alike. */
  lemma StreamAlike(set_: seq<byte>, r: seq<byte>, n: nat)
    requires n >= 2 && |set_| == |r| == ENTRY * n
    requires Secondaries(set_, n, 1, NoSecondary).Some? && Secondaries(set_, n, 1, NoSecondary).value.stream.Some?
    requires FirstStream(set_, n, 1) == Secondaries(set_, n, 1, NoSecondary).value.stream
    requires forall k | 1 <= k < n && set_[ENTRY * k] == STREAM_ENTRY ::
               r[ENTRY * k..ENTRY * k + 32] == set_[ENTRY * k..ENTRY * k + 32]
    ensures var t := Secondaries(set_, n, 1, NoSecondary).value.stream.value;
            ENTRY <= t <= |set_| - ENTRY && forall k | t <= k < t + ENTRY :: r[k] == set_[k]
  {
    var t := FirstStream(set_, n, 1).value;
    var q := t / ENTRY;
    assert t == ENTRY * q && r[ENTRY * q..ENTRY * q + 32] == set_[ENTRY * q..ENTRY * q + 32];
    forall k | t <= k < t + ENTRY ensures r[k] == set_[k] {
      assert r[t..t + 32][k - t] == set_[t..t + 32][k - t];
    }
  }

  /** One summing step loses nothing: different sums stay different, and different bytes make them so. */
  lemma StepInjective(c: int, d: int, a: byte, b: byte)
    requires 0 <= c < U16_LIMIT && 0 <= d < U16_LIMIT && (c == d || a == b) && Step16(c, a) == Step16(d, b)
    ensures c == d && a == b
  {
    var x, y := c / 2 + c % 2 * 0x8000, d / 2 + d % 2 * 0x8000;
    Rotated(c / 2, c % 2, d / 2, d % 2);
    WrapsOnce(x, a, y, b);
    WrapsOnce(a, x, b, y);
  }

  lemma Rotated(h: nat, l: nat, h': nat, l': nat)
    requires h < 0x8000 && h' < 0x8000 && l < 2 && l' < 2
    ensures h + l * 0x8000 < U16_LIMIT && (h + l * 0x8000 == h' + l' * 0x8000 ==> h == h' && l == l')
  {
  }

  lemma WrapsOnce(x: nat, a: nat, y: nat, b: nat)
    requires x < U16_LIMIT && y < U16_LIMIT && a < U16_LIMIT && b < U16_LIMIT
             && (x + a) % U16_LIMIT == (y + b) % U16_LIMIT
    ensures a == b ==> x == y
  {
  }

  /** A single changed byte changes the checksum. */
  lemma {:induction false} OneByteChangesSum(a: seq<byte>, b: seq<byte>, k: nat, n: nat)
    requires |a| == |b| && 4 <= k < n <= |a| && a[k] != b[k] && forall i | 0 <= i < n && i != k :: a[i] == b[i]
    ensures EntrySum(a, n) != EntrySum(b, n)
  {
    if k == n - 1 {
      SameSum(a, b, n - 1);
    } else {
      OneByteChangesSum(a, b, k, n - 1);
    }
    if EntrySum(a, n) == EntrySum(b, n) {
      StepInjective(EntrySum(a, n - 1), EntrySum(b, n - 1), a[n - 1], b[n - 1]);
    }
  }

  lemma {:induction false} SameSum(a: seq<byte>, b: seq<byte>, n: nat)
    requires |a| == |b| && n <= |a| && forall i | 0 <= i < n :: a[i] == b[i]
    ensures EntrySum(a, n) == EntrySum(b, n)
  {
    if n > 0 {
      SameSum(a, b, n - 1);
    }
  }

  /** For example, a system object that moves within its block of 256 clusters: only the lowest byte changes. */
  lemma NearbyMoveBreaks(set_: seq<byte>, n: nat, t: nat, target: nat)
    requires n >= 2 && |set_| == ENTRY * n && target < U32_LIMIT && ReadSet(set_, n).Ok?
    requires ENTRY <= t <= |set_| - ENTRY && t % ENTRY == 0 && (set_[t] == BITMAP_ENTRY || set_[t] == UPCASE_ENTRY)
    requires target != U32(set_, t + 20) && target / 256 == U32(set_, t + 20) / 256
    ensures ReadSet(PutU32(set_, t + 20, target), n) == Err("exFAT file entry-set checksum is invalid")
  {
    hide ReadSet, EntrySum;
    var r := PutU32(set_, t + 20, target);
    LowByteOnly(set_, r, t + 20);
    OneByteChangesSum(set_, r, t + 20, |set_|);
    FieldOnly(set_, t, target);
    SystemFieldsInSet(set_, r, n);
  }

  lemma FieldOnly(set_: seq<byte>, t: nat, target: nat)
    requires ENTRY <= t <= |set_| - ENTRY && t % ENTRY == 0 && (set_[t] == BITMAP_ENTRY || set_[t] == UPCASE_ENTRY)
    requires target < U32_LIMIT
    ensures forall k | 0 <= k < |set_| && !SystemField(set_, k) :: PutU32(set_, t + 20, target)[k] == set_[k]
  {
    forall k | 0 <= k < |set_| && !SystemField(set_, k) ensures PutU32(set_, t + 20, target)[k] == set_[k] {
      AlignedField(t, 0, k);
    }
  }

  /** A byte of the cluster field of an aligned entry, counted from an aligned place. */
  lemma AlignedField(s: nat, off: nat, k: nat)
    requires s % ENTRY == 0 && off % ENTRY == 0
    ensures s + 20 <= off + k < s + 24 ==> s == off + (k - k % ENTRY) && 20 <= k % ENTRY < 24
  {
  }

  lemma LowByteOnly(a: seq<byte>, b: seq<byte>, o: nat)
    requires o + 4 <= |a| == |b| && U32(a, o) != U32(b, o) && U32(a, o) / 256 == U32(b, o) / 256
    ensures a[o] != b[o] && a[o + 1] == b[o + 1] && a[o + 2] == b[o + 2] && a[o + 3] == b[o + 3]
  {
    UpperBytes(a[o], a[o + 1], a[o + 2], a[o + 3], b[o], b[o + 1], b[o + 2], b[o + 3]);
  }

  lemma UpperBytes(a0: byte, a1: byte, a2: byte, a3: byte, b0: byte, b1: byte, b2: byte, b3: byte)
    requires ((a0 as int) + 256 * (a1 as int) + 0x1_0000 * (a2 as int) + 0x100_0000 * (a3 as int)) / 256
          == ((b0 as int) + 256 * (b1 as int) + 0x1_0000 * (b2 as int) + 0x100_0000 * (b3 as int)) / 256
    ensures a1 == b1 && a2 == b2 && a3 == b3
  {
    var x, y := a1 + 256 * (a2 + 256 * a3), b1 + 256 * (b2 + 256 * b3);
    assert a0 + 256 * x == (a0 as int) + 256 * (a1 as int) + 0x1_0000 * (a2 as int) + 0x100_0000 * (a3 as int);
    assert b0 + 256 * y == (b0 as int) + 256 * (b1 as int) + 0x1_0000 * (b2 as int) + 0x100_0000 * (b3 as int);
    Upper(a0, x, b0, y);
    LowByteUnique(a1, a2 + 256 * a3, b1, b2 + 256 * b3);
    LowByteUnique(a2, a3, b2, b3);
  }

  lemma Upper(a: byte, x: nat, b: byte, y: nat)
    requires (a + 256 * x) / 256 == (b + 256 * y) / 256
    ensures x == y
  {
  }

  // ---- the root directory as it is patched ------------------------------------------------------

  /** A byte of the cluster fields that the patch of the root writes last. */
  predicate FieldOf(b: int, u: int, k: int) {
    b + 20 <= k < b + 24 || u + 20 <= k < u + 24
  }

  /** The patched root: every child's set patched and summed, then the two cluster fields written over
      whatever is there. */
  lemma PatchedRoot(m: seq<Record>, root: seq<byte>, b: nat, u: nat) returns (p: seq<byte>)
    requires |m| > 2 && m[0].kind == BitmapKind && m[1].kind == UpcaseKind && m[2].kind == RootKind
    requires m[0].sysOffset == b && m[1].sysOffset == u && (forall k | 0 <= k < |m| :: m[k].target < U32_LIMIT)
    requires GoodChildren(m, ROOT_INDEX, root) && b + ENTRY <= |root| && u + ENTRY <= |root|
    ensures PatchDirectory(m, ROOT_INDEX, root).Some? && |p| == |root| && PatchedUpTo(m, ROOT_INDEX, root, p, |m|)
    ensures var final := PatchDirectory(m, ROOT_INDEX, root).value;
            |final| == |root| && forall k | 0 <= k < |root| && !FieldOf(b, u, k) :: final[k] == p[k]
  {
    hide ReadSet, PatchedSet, PatchSet, PutU32, PatchChildren, FindKind;
    PatchChildrenExact(m, ROOT_INDEX, root, root, 0);
    FirstOfKind(m);
    p := PatchChildren(m, ROOT_INDEX, root, 0).value;
  }

  /** It keeps every entry type, and the set length of every primary entry. */
  lemma TypesKept(m: seq<Record>, root: seq<byte>, p: seq<byte>, final: seq<byte>, b: nat, u: nat, off: nat)
    requires GoodChildren(m, ROOT_INDEX, root) && (forall k | 0 <= k < |m| :: m[k].target < U32_LIMIT)
    requires PatchedUpTo(m, ROOT_INDEX, root, p, |m|) && |final| == |root| && b % ENTRY == 0 && u % ENTRY == 0
    requires forall k | 0 <= k < |root| && !FieldOf(b, u, k) :: final[k] == p[k]
    requires forall i | 0 <= i < |m| && ChildOf(m, ROOT_INDEX, i) :: m[i].entryOffset % ENTRY == 0
    requires off % ENTRY == 0 && off + ENTRY <= |root|
    ensures final[off] == root[off] && (root[off] == FILE_ENTRY ==> final[off + 1] == root[off + 1])
  {
    hide ReadSet, PatchSet;
    assert final[off] == p[off] && final[off + 1] == p[off + 1];
    if i :| 0 <= i < |m| && ChildOf(m, ROOT_INDEX, i) && InSet(m[i], off) {
      assert SetOf(m[i], p) == PatchedSet(m[i], root);
      ChildKeepsType(m[i], root, p, off);
    } else {
      assert NoChildAt(m, ROOT_INDEX, off);
      NotInNext(m, off);
    }
  }

  lemma NotInNext(m: seq<Record>, off: nat)
    requires NoChildAt(m, ROOT_INDEX, off) && off % ENTRY == 0
    requires forall i | 0 <= i < |m| && ChildOf(m, ROOT_INDEX, i) :: m[i].entryOffset % ENTRY == 0
    ensures NoChildAt(m, ROOT_INDEX, off + 1)
  {
    forall i | 0 <= i < |m| && ChildOf(m, ROOT_INDEX, i) ensures !InSet(m[i], off + 1) {
      assert !InSet(m[i], off);
    }
  }

  /** The parser walks over the patched root as over the original one. */
  lemma {:induction false} SameStops(root: seq<byte>, final: seq<byte>, off: nat, s: nat)
    requires |final| == |root| && off % ENTRY == 0 && OnWalk(root, off, s)
    requires forall k: nat | k % ENTRY == 0 && k + ENTRY <= |root| ::
               final[k] == root[k] && (root[k] == FILE_ENTRY ==> final[k + 1] == root[k + 1])
    ensures OnWalk(final, off, s)
    decreases |root| - off
  {
    if off != s {
      SameStops(root, final, off + EntrySize(root, off), s);
    }
  }

  /** A directory with a bad entry set at a stop of its walk does not parse, wherever the parser has come from. */
  lemma {:induction false} BadStop(v: Volume, w: Walk, parent: nat, path: seq<byte>, data: seq<byte>, off: nat, s: nat)
    requires v.Valid() && OnWalk(data, off, s) && NextEntry(v, parent, path, data, s).Fail?
    ensures ParseDir(v, w, parent, path, data, off).Err?
    decreases |data| - off
  {
    hide NextEntry, ReadAll;
    PassEntry(v, w, parent, path, data, off);
    if off != s {
      NextSize(v, parent, path, data, off);
      NotTheEnd(v, parent, path, data, off);
      match NextEntry(v, parent, path, data, off)
      case Skip(next) => BadStop(v, w, parent, path, data, next, s);
      case Fail(_) =>
      case Found(o, next) =>
        if o.kind == FileKind {
          BadStop(v, Walk(w.objects + [o], w.visited), parent, path, data, next, s);
        } else if o.clusters[0] !in w.visited {
          EnterDirectory(v, w, parent, path, data, off, o, next);
          var below := ParseDir(v, Walk(w.objects + [o], w.visited + {o.clusters[0]}), |w.objects|, o.path,
                                ReadAll(v, o.clusters), 0);
          if below.Ok? {
            BadStop(v, below.value, parent, path, data, next, s);
          }
        }
    }
  }

  lemma NotTheEnd(v: Volume, parent: nat, path: seq<byte>, data: seq<byte>, off: nat)
    requires v.Valid() && off + ENTRY <= |data| && data[off] != 0
    ensures !NextEntry(v, parent, path, data, off).End?
  {
  }

  /** A volume whose root directory has a bad entry set at a stop of its walk is not scanned. */
  lemma BadRoot(v: Volume, rootClusters: seq<nat>, s: nat)
    requires v.Valid() && Chain(v, v.root, 0, false, false) == Ok(rootClusters)
    requires forall i | 0 <= i < |rootClusters| :: rootClusters[i] < |v.heap|
    requires OnWalk(ReadAll(v, rootClusters), 0, s)
             && NextEntry(v, ROOT_INDEX, [SLASH], ReadAll(v, rootClusters), s).Fail?
    ensures forall cat :: !Scans(v, cat)
  {
    hide NextEntry, ReadAll, ParseDir, OnWalk, SystemEntries, ExactOwnership, Chain;
    var root := ReadAll(v, rootClusters);
    forall w ensures ParseDir(v, w, ROOT_INDEX, [SLASH], root, 0).Err? {
      BadStop(v, w, ROOT_INDEX, [SLASH], root, 0, s);
    }
  }

  // ---- the relaid volume ------------------------------------------------------------------------

  /** Without the condition: for every object of the root directory, the relaid volume's entry set is accepted exactly
      when its checksum is still the one of the patched set, whichever system entries lie inside it; when it is not, no
      scan of the relaid volume succeeds. */
  lemma RelaidRootRefused(v: Volume, v2: Volume, cat: Catalogue, targets: seq<nat>, m: seq<Record>, i: nat)
    requires LaidAnew(v, v2, cat, targets, m) && i < |m| && ChildOf(m, ROOT_INDEX, i)
    ensures var root := ReadAll(v, cat.objects[2].clusters);
            var root2 := ReadAll(v2, Run(targets[2], |cat.objects[2].clusters|));
            && |root2| == |root| && SetInside(m[i], |root|) && ReadSet(SetOf(m[i], root), m[i].entryCount).Ok?
            && m[i].target < U32_LIMIT
            && var patched := PatchedSet(m[i], root);
               var found := SetOf(m[i], root2);
               && (ReadSet(found, m[i].entryCount).Ok? <==> EntrySum(found, |found|) == EntrySum(patched, |patched|))
               && (EntrySum(found, |found|) != EntrySum(patched, |patched|) ==> forall cat2 :: !Scans(v2, cat2))
  {
    hide ReadSet, PatchSet, EntrySum, PatchDirectory, GoodChildren, NextEntry, PatchedSet, OnWalk, ReadAll, Chain,
         Scans, ReadCatalogue, LaidAnew, StopsOnWalk, ChildrenRead, PatchedUpTo, FieldOf, PlacedAt;
    LaidFacts(v, v2, cat, targets, m);
    RootFacts(v, cat, targets, m);
    var root := ReadAll(v, cat.objects[2].clusters);
    var b, u := cat.system.bitmapOffset, cat.system.upcaseOffset;
    var p := PatchedRoot(m, root, b, u);
    var final := PatchDirectory(m, ROOT_INDEX, root).value;
    RootPlaced(v, v2, cat, targets, m, final);
    ChildFacts(cat, targets, m, root, i);
    ChildPatched(m, root, p, i);
    FoundReads(m[i], root, p, final, b, u);
    if ReadSet(SetOf(m[i], final), m[i].entryCount).Err? {
      StopsThere(v2, m[i], [SLASH], final);
      forall off: nat | off % ENTRY == 0 && off + ENTRY <= |root|
        ensures final[off] == root[off] && (root[off] == FILE_ENTRY ==> final[off + 1] == root[off + 1])
      {
        TypesKept(m, root, p, final, b, u, off);
      }
      SameStops(root, final, 0, m[i].entryOffset);
      SystemRun(v, v2, cat, targets, m, 2, false, 0);
      RunThere(v2, targets[2], |cat.objects[2].clusters|);
      BadRoot(v2, Run(targets[2], |cat.objects[2].clusters|), m[i].entryOffset);
    }
  }

  lemma RunThere(v: Volume, t: nat, n: nat)
    requires v.Valid() && t + n <= v.clusterCount + 2
    ensures forall i | 0 <= i < |Run(t, n)| :: Run(t, n)[i] < |v.heap|
  {
  }

  /** What a scan says about the root directory and its system entries, wherever they lie. */
  lemma RootFacts(v: Volume, cat: Catalogue, targets: seq<nat>, m: seq<Record>)
    requires Understood(v, cat) && Describes(m, cat.objects, targets)
    ensures (forall k | 0 <= k < |cat.objects[2].clusters| :: cat.objects[2].clusters[k] < |v.heap|)
    ensures var root := ReadAll(v, cat.objects[2].clusters);
            var b := cat.system.bitmapOffset; var u := cat.system.upcaseOffset;
            && ActiveEntry(root, b, BitmapKind) && ActiveEntry(root, u, UpcaseKind)
            && ChildrenRead(cat.objects, ROOT_INDEX, root, 0) && GoodChildren(m, ROOT_INDEX, root)
            && StopsOnWalk(cat.objects, 0, ROOT_INDEX, root, 0)
    ensures |m| > 2 && m[0].kind == BitmapKind && m[1].kind == UpcaseKind && m[2].kind == RootKind
    ensures m[0].sysOffset == cat.system.bitmapOffset && m[1].sysOffset == cat.system.upcaseOffset
    ensures forall k | 0 <= k < |m| && ChildOf(m, ROOT_INDEX, k) :: m[k].entryOffset % ENTRY == 0
  {
    hide ReadSet, OnWalk, StreamClusters, ReadAll, GoodChildren;
    var root := ReadAll(v, cat.objects[2].clusters);
    assert SubtreeRead(v, cat.objects, 2);
    ReadChildrenAreGood(cat.objects, m, targets, ROOT_INDEX, root);
    forall k | 0 <= k < |m| && ChildOf(m, ROOT_INDEX, k) ensures m[k].entryOffset % ENTRY == 0 {
      assert ChildAt(cat.objects, ROOT_INDEX, k);
    }
  }

  /** One object of the root directory. */
  lemma ChildFacts(cat: Catalogue, targets: seq<nat>, m: seq<Record>, root: seq<byte>, i: nat)
    requires Describes(m, cat.objects, targets) && i < |m| && ChildOf(m, ROOT_INDEX, i)
    requires ChildrenRead(cat.objects, ROOT_INDEX, root, 0) && StopsOnWalk(cat.objects, 0, ROOT_INDEX, root, 0)
    ensures SetInside(m[i], |root|) && ReadSet(SetOf(m[i], root), m[i].entryCount).Ok?
    ensures m[i].entryOffset % ENTRY == 0 && OnWalk(root, 0, m[i].entryOffset)
    ensures root[m[i].entryOffset] == FILE_ENTRY && m[i].entryCount == root[m[i].entryOffset + 1] as int + 1
  {
    hide ReadSet, OnWalk, Describes, ChildrenRead, StopsOnWalk;
    RecordPlace(cat.objects, targets, m, i);
    ReadThere(cat.objects, root, i);
    StopThere(cat.objects, root, i);
    var o := cat.objects[i];
    assert root[m[i].entryOffset..m[i].entryOffset + ENTRY * m[i].entryCount] == root[o.entryOffset..SetEnd(o)];
  }

  lemma ReadThere(objects: seq<Obj>, root: seq<byte>, i: nat)
    requires i < |objects| && ChildAt(objects, ROOT_INDEX, i) && ChildrenRead(objects, ROOT_INDEX, root, 0)
    ensures SetRead(objects[i], root)
  {
    hide SetRead;
  }

  lemma StopThere(objects: seq<Obj>, root: seq<byte>, i: nat)
    requires i < |objects| && ChildAt(objects, ROOT_INDEX, i) && StopsOnWalk(objects, 0, ROOT_INDEX, root, 0)
    ensures objects[i].entryOffset >= 0 && OnWalk(root, 0, objects[i].entryOffset)
  {
    hide OnWalk;
  }

  lemma RecordPlace(objects: seq<Obj>, targets: seq<nat>, m: seq<Record>, i: nat)
    requires Describes(m, objects, targets) && i < |m|
    ensures |m| == |objects|
    ensures m[i].entryOffset == objects[i].entryOffset && m[i].entryCount == objects[i].entryCount
    ensures ChildOf(m, ROOT_INDEX, i) ==> ChildAt(objects, ROOT_INDEX, i)
  {
  }

  lemma ChildPatched(m: seq<Record>, root: seq<byte>, p: seq<byte>, i: nat)
    requires GoodChildren(m, ROOT_INDEX, root) && i < |m| && ChildOf(m, ROOT_INDEX, i)
             && (forall k | 0 <= k < |m| :: m[k].target < U32_LIMIT) && PatchedUpTo(m, ROOT_INDEX, root, p, |m|)
    ensures |p| == |root| && SetInside(m[i], |root|) && ReadSet(SetOf(m[i], root), m[i].entryCount).Ok?
    ensures SetOf(m[i], p) == PatchedSet(m[i], root)
  {
    hide ReadSet, PatchedSet, PatchSet;
  }

  /** Reading the overwritten set. */
  lemma FoundReads(r: Record, root: seq<byte>, p: seq<byte>, final: seq<byte>, b: nat, u: nat)
    requires SetInside(r, |root|) && r.target < U32_LIMIT && ReadSet(SetOf(r, root), r.entryCount).Ok?
    requires |p| == |final| == |root| && SetOf(r, p) == PatchedSet(r, root) && r.entryOffset % ENTRY == 0
    requires ActiveEntry(root, b, BitmapKind) && ActiveEntry(root, u, UpcaseKind)
    requires forall k | 0 <= k < |root| && !FieldOf(b, u, k) :: final[k] == p[k]
    requires root[r.entryOffset] == FILE_ENTRY && r.entryCount == root[r.entryOffset + 1] as int + 1
    ensures var patched := PatchedSet(r, root);
            var found := SetOf(r, final);
            if EntrySum(found, |found|) == EntrySum(patched, |patched|) then ReadSet(found, r.entryCount).Ok?
            else ReadSet(found, r.entryCount) == Err("exFAT file entry-set checksum is invalid")
    ensures SetOf(r, final)[0] == FILE_ENTRY && SetOf(r, final)[1] as int + 1 == r.entryCount
  {
    hide ReadSet, PatchSet, EntrySum;
    var n := r.entryCount;
    var set_ := SetOf(r, root);
    PatchSetReads(set_, n, r.target);
    PatchKeepsHead(set_, n, r.target);
    var patched, found := PatchedSet(r, root), SetOf(r, final);
    forall k | 0 <= k < |patched| && !SystemField(patched, k) ensures found[k] == patched[k] {
      FieldsInSet(r, root, p, b, u, k);
      assert patched[k] == p[r.entryOffset + k];
    }
    SystemFieldsInSet(patched, found, n);
    assert !SystemField(patched, 0) && !SystemField(patched, 1);
  }

  /** A byte of the set that the last two writes change lies in the cluster field of a system entry. */
  lemma FieldsInSet(r: Record, root: seq<byte>, p: seq<byte>, b: nat, u: nat, k: nat)
    requires SetInside(r, |root|) && r.target < U32_LIMIT && ReadSet(SetOf(r, root), r.entryCount).Ok?
    requires |p| == |root| && SetOf(r, p) == PatchedSet(r, root) && r.entryOffset % ENTRY == 0
    requires ActiveEntry(root, b, BitmapKind) && ActiveEntry(root, u, UpcaseKind)
    requires root[r.entryOffset] == FILE_ENTRY && k < ENTRY * r.entryCount && !SystemField(PatchedSet(r, root), k)
    ensures !FieldOf(b, u, r.entryOffset + k)
  {
    hide ReadSet, PatchSet;
    var t := k - k % ENTRY;
    EntryFits(t, r.entryCount);
    PatchKeepsType(SetOf(r, root), r.entryCount, r.target, t);
    assert SetOf(r, root)[t] == root[r.entryOffset + t];
    AlignedField(b, r.entryOffset, k);
    AlignedField(u, r.entryOffset, k);
  }

  lemma EntryFits(t: nat, n: nat)
    requires t % ENTRY == 0 && t < ENTRY * n
    ensures t + ENTRY <= ENTRY * n
  {
  }

  /** The parser stops at a set that does not read. */
  lemma StopsThere(v: Volume, r: Record, path: seq<byte>, data: seq<byte>)
    requires v.Valid() && SetInside(r, |data|) && ReadSet(SetOf(r, data), r.entryCount).Err?
    requires SetOf(r, data)[0] == FILE_ENTRY && SetOf(r, data)[1] as int + 1 == r.entryCount
    ensures NextEntry(v, ROOT_INDEX, path, data, r.entryOffset) == Fail(ReadSet(SetOf(r, data), r.entryCount).reason)
  {
    hide ReadSet;
  }
}
