/** The scanner as the program runs it: loops over entries and clusters, and a catalogue that grows in place. */
module ExfatScanner {
  import opened Bytes
  import opened Checksum
  import opened ExfatVolume
  import opened ExfatDirectory
  import opened ExfatScan
  import opened ExfatTree
  import opened ExfatMeaning
  import opened ExfatRoot
  import opened ExfatRelaid
  import opened Wrappers

  /** Reading one entry set: one pass over its secondary entries. */
  method ReadEntrySet(set_: seq<byte>, n: nat) returns (r: Result<EntrySet>)
    requires n >= 2 && |set_| == ENTRY * n
    ensures r == ReadSet(set_, n)
  {
    hide U64, U32, Bit;
    var sum := EntryChecksum(set_);
    if sum != U16(set_, 2) {
      return Err("exFAT file entry-set checksum is invalid");
    }
    var stream: Option<nat> := None;
    var nameLength: nat := 0;
    var name: seq<byte> := [];
    for i := 1 to n
      invariant Secondaries(set_, n, i, Secondary(stream, nameLength, name)) == Secondaries(set_, n, 1, NoSecondary)
      invariant stream.Some? ==> stream.value + ENTRY <= |set_|
    {
      var so := ENTRY * i;
      if set_[so] == STREAM_ENTRY {
        if stream.Some? {
          return Err("duplicate exFAT stream extension");
        }
        stream := Some(so);
        nameLength := set_[so + 3] as int;
      } else if set_[so] == NAME_ENTRY {
        name := name + set_[so + 2..so + 32];
      }
    }
    if stream.None? {
      return Err("exFAT file entry set has no stream extension");
    }
    if nameLength * 2 > |name| {
      return Err("truncated exFAT file name");
    }
    var t := stream.value;
    return Ok(EntrySet(n, t, name[..nameLength * 2], U32(set_, t + 20), U64(set_, t + 8), U64(set_, t + 24),
                       Bit(set_[t + 1], 1), Bit(U16(set_, 4), 4)));
  }

  /** The search for the allocation bitmap and the up-case table, one root entry at a time. */
  method FindSystemEntries(v: Volume, root: seq<byte>) returns (r: Result<System>)
    requires v.Valid()
    ensures r == SystemEntries(v, root, 0, NoSystem)
  {
    hide Follow, U32, U64, Bit, Chain;
    var s := NoSystem;
    var off: nat := 0;
    while off + ENTRY <= |root| && root[off] != 0
      invariant SystemEntries(v, root, off, s) == SystemEntries(v, root, 0, NoSystem)
      decreases |root| - off
    {
      if root[off] == BITMAP_ENTRY && !Bit(root[off + 1], 0) {
        if s.bitmapOffset != NONE {
          return Err("duplicate active exFAT allocation bitmap entry");
        }
        var length := U64(root, off + 24);
        var clusters := ReadChain(v, U32(root, off + 20), ClustersFor(length, v.clusterSize), true, false);
        if clusters.Err? {
          return Err(clusters.reason);
        }
        s := s.(bitmapOffset := off, bitmapLength := length, bitmapClusters := clusters.value);
      } else if root[off] == UPCASE_ENTRY {
        if s.upcaseOffset != NONE {
          return Err("duplicate exFAT up-case table entry");
        }
        var length := U64(root, off + 24);
        var clusters := ReadChain(v, U32(root, off + 20), ClustersFor(length, v.clusterSize), true, false);
        if clusters.Err? {
          return Err(clusters.reason);
        }
        s := s.(upcaseOffset := off, upcaseLength := length, upcaseClusters := clusters.value);
      }
      off := off + ENTRY;
    }
    if s.bitmapOffset == NONE || |s.bitmapClusters| == 0 {
      return Err("active exFAT allocation bitmap entry was not found");
    }
    if s.upcaseOffset == NONE || |s.upcaseClusters| == 0 {
      return Err("exFAT up-case table entry was not found");
    }
    return Ok(s);
  }

  method ReadStream(v: Volume, clusters: seq<nat>) returns (data: seq<byte>)
    requires forall i | 0 <= i < |clusters| :: clusters[i] < |v.heap|
    ensures data == ReadAll(v, clusters)
  {
    data := [];
    for i := 0 to |clusters|
      invariant data + ReadAll(v, clusters[i..]) == ReadAll(v, clusters)
    {
      assert clusters[i..][1..] == clusters[i + 1..];
      data := data + v.heap[clusters[i]];
    }
  }

  /** The catalogue under construction: objects found so far, and a mark for every directory already entered. */
  class Parser {
    const v: Volume
    var objects: seq<Obj>
    const visited: array<bool>

    ghost predicate Valid()
      reads this
    {
      v.Valid() && visited.Length == v.clusterCount
    }

    ghost function Marked(): set<nat>
      reads this, visited
      requires Valid()
    {
      set b: nat | b < visited.Length && visited[b] :: b + 2
    }

    ghost function View(): Walk
      reads this, visited
      requires Valid()
    {
      Walk(objects, Marked())
    }

    constructor (v: Volume, first: seq<Obj>)
      requires v.Valid()
      ensures Valid() && this.v == v && fresh(visited) && View() == Walk(first, {v.root})
    {
      this.v := v;
      this.objects := first;
      this.visited := new bool[v.clusterCount](_ => false);
      new;
      visited[v.root - 2] := true;
    }

    method Visit(cluster: nat)
      requires Valid() && v.InHeap(cluster)
      modifies visited
      ensures View() == Walk(objects, old(Marked()) + {cluster})
    {
      visited[cluster - 2] := true;
      assert visited[cluster - 2];
      forall c | c in Marked() ensures c in old(Marked()) + {cluster} { }
      forall c | c in old(Marked()) ensures c in Marked() {
        assert visited[c - 2];
      }
    }

    /** Parsing a directory's bytes adds exactly what the parse function adds, or fails as it fails. */
    method ParseDirectory(parent: nat, path: seq<byte>, data: seq<byte>) returns (failure: Option<string>)
      requires Valid()
      modifies this`objects, visited
      ensures match ParseDir(v, old(View()), parent, path, data, 0)
              case Ok(w) => failure.None? && View() == w
              case Err(e) => failure == Some(e)
      decreases v.HeapSet() - Marked()
    {
      hide ReadSet, SetStep, ReadAll, Bit, ParseDir;
      var off: nat := 0;
      while off + ENTRY <= |data| && data[off] != 0
        invariant ParseDir(v, View(), parent, path, data, off) == ParseDir(v, old(View()), parent, path, data, 0)
        invariant old(Marked()) <= Marked()
        decreases |data| - off
      {
        PassEntry(v, View(), parent, path, data, off);
        var step := ReadEntry(parent, path, data, off);
        match step
        case End => break;
        case Fail(e) => return Some(e);
        case Skip(next) => off := next;
        case Found(o, next) =>
          ghost var w := View();
          var index := |objects|;
          objects := objects + [o];
          if o.kind != FileKind {
            var first := o.clusters[0];
            if visited[first - 2] {
              return Some("exFAT directory cycle or duplicate first cluster");
            }
            assert first in v.HeapSet() - Marked();
            Visit(first);
            assert first !in v.HeapSet() - Marked();
            var child := ReadStream(v, o.clusters);
            ghost var entered := View();
            assert entered == w.(objects := w.objects + [o]).(visited := w.visited + {first});
            var below := ParseDirectory(index, o.path, child);
            EnterDirectory(v, w, parent, path, data, off, o, next);
            if below.Some? {
              return below;
            }
          }
          assert o.kind == FileKind ==> View() == w.(objects := w.objects + [o]);
          assert ParseDir(v, w, parent, path, data, off) == ParseDir(v, View(), parent, path, data, next);
          off := next;
      }
      PassEntry(v, View(), parent, path, data, off);
      return None;
    }

    /** Reading the entry at one offset. */
    method ReadEntry(parent: nat, path: seq<byte>, data: seq<byte>, off: nat) returns (s: Step)
      requires Valid() && off + ENTRY <= |data| && data[off] != 0
      ensures s == NextEntry(v, parent, path, data, off)
    {
      hide Follow, ReadSet, Chain;
      if data[off] != FILE_ENTRY {
        return Skip(off + ENTRY);
      }
      var n: nat := data[off + 1] as int + 1;
      if n < 2 || off + ENTRY * n > |data| {
        return Fail("truncated exFAT file directory-entry set");
      }
      var es := ReadEntrySet(data[off..off + ENTRY * n], n);
      if es.Err? {
        return Fail(es.reason);
      }
      var e := es.value;
      var count := ClustersFor(e.length, v.clusterSize);
      if count != 0 {
        var clusters := ReadChain(v, e.first, count, true, e.noFat);
        if clusters.Err? {
          return Fail(clusters.reason);
        }
        return Found(ObjectOf(e, clusters.value, parent, path, off), off + ENTRY * n);
      }
      if e.first != 0 || e.length != 0 || e.noFat {
        return Fail("invalid zero-length exFAT stream fields");
      }
      return Skip(off + ENTRY * n);
    }
  }

  // ---- ownership --------------------------------------------------------------------------------

  predicate OwnedBefore(objects: seq<Obj>, n: nat, cluster: nat)
    requires n <= |objects|
  {
    exists i | 0 <= i < n :: Owns(objects, i, cluster)
  }

  /** The first n objects have exclusive, allocated clusters. */
  ghost predicate ClaimedTo(objects: seq<Obj>, bitmap: seq<byte>, n: nat)
    requires n <= |objects|
  {
    && (forall i | 0 <= i < n :: NoRepeats(objects[i].clusters))
    && (forall i, j, c | 0 <= i < j < n && Owns(objects, i, c) :: !Owns(objects, j, c))
    && (forall i, c | 0 <= i < n && Owns(objects, i, c) :: Allocated(bitmap, c))
  }

  /** Claiming the clusters of object n: it fails exactly when one is taken, repeated or marked free. */
  method Claim(objects: seq<Obj>, n: nat, bitmap: seq<byte>, owners: array<bool>) returns (failure: Option<string>)
    requires n < |objects| && ClaimedTo(objects, bitmap, n)
    requires forall k | 0 <= k < |objects[n].clusters| :: 2 <= objects[n].clusters[k] < owners.Length + 2
    requires forall b | 0 <= b < owners.Length :: owners[b] <==> OwnedBefore(objects, n, b + 2)
    modifies owners
    ensures failure.None? <==> ClaimedTo(objects, bitmap, n + 1)
    ensures failure.None? ==> forall b | 0 <= b < owners.Length :: owners[b] <==> OwnedBefore(objects, n + 1, b + 2)
  {
    hide Allocated;
    var clusters := objects[n].clusters;
    for j := 0 to |clusters|
      invariant forall b | 0 <= b < owners.Length ::
                  owners[b] <==> OwnedBefore(objects, n, b + 2) || b + 2 in clusters[..j]
      invariant NoRepeats(clusters[..j])
      invariant forall k | 0 <= k < j :: !OwnedBefore(objects, n, clusters[k]) && Allocated(bitmap, clusters[k])
    {
      var bit := clusters[j] - 2;
      assert Owns(objects, n, clusters[j]);
      if owners[bit] {
        TakenTwice(objects, n, bitmap, j);
        return Some("exFAT cluster has multiple owners");
      }
      owners[bit] := true;
      NoRepeatsPush(clusters, j);
      if !Allocated(bitmap, clusters[j]) {
        return Some("object references an exFAT cluster marked free");
      }
    }
    assert clusters[..|clusters|] == clusters;
    forall i, c | 0 <= i < n && Owns(objects, i, c) ensures !Owns(objects, n, c) {
      assert OwnedBefore(objects, n, c);
    }
    forall b | 0 <= b < owners.Length ensures owners[b] <==> OwnedBefore(objects, n + 1, b + 2) {
      if OwnedBefore(objects, n + 1, b + 2) && !Owns(objects, n, b + 2) {
        var i :| 0 <= i < n + 1 && Owns(objects, i, b + 2);
        assert i < n;
      }
      if b + 2 in clusters { assert Owns(objects, n, b + 2); }
    }
    return None;
  }

  lemma NoRepeatsPush(s: seq<nat>, j: nat)
    requires j < |s| && NoRepeats(s[..j]) && s[j] !in s[..j]
    ensures NoRepeats(s[..j + 1]) && s[..j + 1] == s[..j] + [s[j]]
  {
    assert s[..j + 1] == s[..j] + [s[j]];
  }

  lemma TakenTwice(objects: seq<Obj>, n: nat, bitmap: seq<byte>, j: nat)
    requires n < |objects| && j < |objects[n].clusters|
    requires var c := objects[n].clusters[j]; OwnedBefore(objects, n, c) || c in objects[n].clusters[..j]
    ensures !ClaimedTo(objects, bitmap, n + 1)
  {
    var c := objects[n].clusters[j];
    assert Owns(objects, n, c);
    if c in objects[n].clusters[..j] {
      var k :| 0 <= k < j && objects[n].clusters[..j][k] == c;
      assert objects[n].clusters[k] == c;
    }
  }

  lemma ClaimedAll(clusterCount: nat, objects: seq<Obj>, bitmap: seq<byte>)
    ensures ExactOwnership(clusterCount, objects, bitmap) <==>
              ClaimedTo(objects, bitmap, |objects|)
              && forall c: nat | 2 <= c < clusterCount + 2 && Allocated(bitmap, c) :: Owned(objects, c)
  {
    hide Allocated, NoRepeats;
  }

  /** The growth report of one object. */
  predicate GrowthAt(clusterCount: nat, o: Obj, bitmap: seq<byte>) {
    o.Regular() ==>
      && Fragments(o.clusters) == 1
      && ReserveClear(clusterCount, bitmap, o.clusters[|o.clusters| - 1] + 1, Reserve(|o.clusters|, 10))
  }

  method CheckReserve(clusterCount: nat, o: Obj, bitmap: seq<byte>) returns (good: bool)
    requires o.Regular()
    ensures good == GrowthAt(clusterCount, o, bitmap)
  {
    var fragments := CountFragments(o.clusters);
    if fragments != 1 {
      return false;
    }
    good := true;
    var reserve := (|o.clusters| * 10 + 99) / 100;
    var cursor := o.clusters[|o.clusters| - 1] + 1;
    for r := 0 to reserve
      invariant good <==> ReserveClear(clusterCount, bitmap, cursor, r)
    {
      if cursor + r >= clusterCount + 2 || Allocated(bitmap, cursor + r) {
        good := false;
      }
      GrowReserve(clusterCount, bitmap, cursor, r);
    }
  }

  lemma GrowReserve(clusterCount: nat, bitmap: seq<byte>, start: nat, n: nat)
    ensures ReserveClear(clusterCount, bitmap, start, n + 1) <==>
              ReserveClear(clusterCount, bitmap, start, n) && start + n < clusterCount + 2
                  && !Allocated(bitmap, start + n)
  {
    hide Allocated;
  }

  /** The ownership pass: it succeeds exactly when ownership is exact, and reports growth correctly. */
  method CheckOwnership(clusterCount: nat, objects: seq<Obj>, bitmap: seq<byte>) returns (r: Result<bool>)
    requires forall i, k | 0 <= i < |objects| && 0 <= k < |objects[i].clusters| ::
               2 <= objects[i].clusters[k] < clusterCount + 2
    ensures r.Ok? <==> ExactOwnership(clusterCount, objects, bitmap)
    ensures r.Ok? ==> (r.value <==> GrowthSatisfied(clusterCount, objects, bitmap))
  {
    hide Allocated, NoRepeats, ClaimedTo, GrowthAt, ReserveClear, ExactOwnership, Fragments;
    var owners := new bool[clusterCount](_ => false);
    var growth := true;
    var files := 0;
    var fragmented := 0;
    ClaimedNone(objects, bitmap);
    ClaimedAll(clusterCount, objects, bitmap);
    for i := 0 to |objects|
      invariant ClaimedTo(objects, bitmap, i)
      invariant forall b | 0 <= b < owners.Length :: owners[b] <==> OwnedBefore(objects, i, b + 2)
      invariant growth <==> forall k | 0 <= k < i :: GrowthAt(clusterCount, objects[k], bitmap)
      invariant files > 0 <==> exists k | 0 <= k < i :: objects[k].kind == FileKind
      invariant files >= 0 && fragmented >= 0
      invariant fragmented == 0 <==> forall k | 0 <= k < i && objects[k].Directory() ::
                  Fragments(objects[k].clusters) <= 1
    {
      var o := objects[i];
      if o.kind == FileKind {
        files := files + 1;
      }
      var fragments := CountFragments(o.clusters);
      if o.Directory() && fragments > 1 {
        fragmented := fragmented + 1;
      }
      var failure := Claim(objects, i, bitmap, owners);
      if failure.Some? {
        NotClaimed(objects, bitmap, i + 1);
        return Err(failure.value);
      }
      if o.Regular() {
        var good := CheckReserve(clusterCount, o, bitmap);
        if !good { growth := false; }
      } else {
        NoGrowthNeeded(clusterCount, o, bitmap);
      }
    }
    for cluster := 2 to clusterCount + 2
      invariant forall c: nat | 2 <= c < cluster && Allocated(bitmap, c) :: Owned(objects, c)
    {
      if Allocated(bitmap, cluster) && !owners[cluster - 2] {
        assert !Owned(objects, cluster);
        return Err("exFAT allocation bitmap contains an unowned cluster");
      }
      assert owners[cluster - 2] ==> Owned(objects, cluster);
    }
    if files == 0 || fragmented != 0 { growth := false; }
    GrowthFromParts(clusterCount, objects, bitmap);
    return Ok(growth);
  }

  lemma ClaimedNone(objects: seq<Obj>, bitmap: seq<byte>)
    ensures ClaimedTo(objects, bitmap, 0)
  {
  }

  lemma NotClaimed(objects: seq<Obj>, bitmap: seq<byte>, n: nat)
    requires n <= |objects| && !ClaimedTo(objects, bitmap, n)
    ensures !ClaimedTo(objects, bitmap, |objects|)
  {
    hide Allocated, NoRepeats;
  }

  lemma NoGrowthNeeded(clusterCount: nat, o: Obj, bitmap: seq<byte>)
    requires !o.Regular()
    ensures GrowthAt(clusterCount, o, bitmap)
  {
  }

  lemma GrowthFromParts(clusterCount: nat, objects: seq<Obj>, bitmap: seq<byte>)
    ensures GrowthSatisfied(clusterCount, objects, bitmap) <==>
              && (exists k | 0 <= k < |objects| :: objects[k].kind == FileKind)
              && (forall k | 0 <= k < |objects| && objects[k].Directory() :: Fragments(objects[k].clusters) <= 1)
              && (forall k | 0 <= k < |objects| :: GrowthAt(clusterCount, objects[k], bitmap))
  {
    hide ReserveClear, Fragments;
  }

  // ---- the whole scan ---------------------------------------------------------------------------

  /** The scan reads the catalogue, checks ownership, and succeeds on exactly the volumes that scan. */
  method Scan(v: Volume) returns (r: Result<(Catalogue, bool)>)
    requires v.Valid()
    ensures r.Ok? ==> Scans(v, r.value.0)
    ensures r.Ok? ==> (r.value.1 <==> GrowthSatisfied(v.clusterCount, r.value.0.objects, r.value.0.bitmap))
    ensures r.Err? ==> forall cat :: !Scans(v, cat)
  {
    hide ParseDir, SystemEntries, Follow, TableSum, ReadAll, ExactOwnership, GrowthSatisfied;
    var rootChain := ReadChain(v, v.root, 0, false, false);
    if rootChain.Err? {
      return Err(rootChain.reason);
    }
    var rootClusters := rootChain.value;
    ChainShape(v, v.root, 0, false, false);
    var root := ReadStream(v, rootClusters);
    if |root| == 0 {
      return Err("invalid exFAT root directory allocation");
    }
    var found := FindSystemEntries(v, root);
    if found.Err? {
      return Err(found.reason);
    }
    var s := found.value;
    if s.bitmapLength == 0 || s.bitmapLength * 8 < v.clusterCount {
      return Err("exFAT allocation bitmap is shorter than the heap");
    }
    SystemStreams(v, root, s);
    var bitmapData := ReadStream(v, s.bitmapClusters);
    var upcaseData := ReadStream(v, s.upcaseClusters);
    if s.bitmapLength > |bitmapData| || s.upcaseLength > |upcaseData| {
      return Err("short exFAT stream");
    }
    var sum := TableChecksum(upcaseData[..s.upcaseLength]);
    if s.upcaseOffset < 0 || s.upcaseOffset + ENTRY > |root| || sum != U32(root, s.upcaseOffset + 4) {
      return Err("exFAT up-case table checksum is invalid");
    }
    var parser := new Parser(v, FirstObjects(s, rootClusters, |root|));
    var failure := parser.ParseDirectory(ROOT_INDEX, [SLASH], root);
    if failure.Some? {
      return Err(failure.value);
    }
    var cat := Catalogue(parser.objects, bitmapData[..s.bitmapLength], s);
    assert ReadCatalogue(v) == Ok(cat);
    AllInHeap(v, cat);
    var owned := CheckOwnership(v.clusterCount, cat.objects, cat.bitmap);
    if owned.Err? {
      return Err(owned.reason);
    }
    return Ok((cat, owned.value));
  }

  lemma SystemStreams(v: Volume, root: seq<byte>, s: System)
    requires v.Valid() && SystemEntries(v, root, 0, NoSystem) == Ok(s)
    ensures StreamsInHeap(v, s)
  {
    hide SystemEntries, Chain;
    NothingFound(v, root);
    SystemEntriesFound(v, root, 0, NoSystem);
    SystemClusters(v, root, s);
  }

  lemma AllInHeap(v: Volume, cat: Catalogue)
    requires v.Valid() && ReadCatalogue(v) == Ok(cat)
    ensures forall i, k | 0 <= i < |cat.objects| && 0 <= k < |cat.objects[i].clusters| ::
              2 <= cat.objects[i].clusters[k] < v.clusterCount + 2
  {
    hide ReadAll, ParseDir, SystemEntries, TreeRead;
    ScanUnderstands(v, cat);
    forall i, k | 0 <= i < |cat.objects| && 0 <= k < |cat.objects[i].clusters|
      ensures 2 <= cat.objects[i].clusters[k] < v.clusterCount + 2
    {
      assert InHeap(v, cat.objects[i]);
    }
  }
}
