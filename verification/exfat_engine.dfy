/** The relayout engine as it runs: copy loops over a mutable disk, proved to take exactly the steps of the traces. */
module ExfatEngine {
  import opened Bytes
  import opened ExfatScan
  import opened ExfatManifest
  import opened ExfatCanonical
  import opened ExfatBuilder
  import opened ExfatDevice
  import opened ExfatProtocol
  import opened Wrappers

  predicate HeapRun(g: Geometry, t: nat, n: nat) {
    2 <= t && t + n <= g.clusterCount + 2
  }

  /** The places of a list of clusters. */
  function PlacesOf(clusters: seq<nat>): set<Place> {
    set c | c in clusters :: Cluster(c)
  }

  /** Everything outside some places is as it was. */
  predicate SameOutside(a: Image, b: Image, changed: set<Place>) {
    a.Keys == b.Keys && forall p | p in a && p !in changed :: b[p] == a[p]
  }

  lemma SameItself(a: Image, changed: set<Place>)
    ensures SameOutside(a, a, changed)
  {
  }

  lemma OutsideGrows(a: Image, b: Image, c: Image, few: set<Place>, changed: set<Place>)
    requires SameOutside(a, b, changed) && SameOutside(b, c, few) && few <= changed
    ensures SameOutside(a, c, changed)
  {
  }

  lemma ClustersThere(g: Geometry, img: Image, t: nat, n: nat)
    requires HeapRun(g, t, n) && Sized(g, img)
    ensures forall j | 0 <= j < n :: Cluster(Run(t, n)[j]) in img
  {
    HeapPlaces(g, t, n);
  }

  lemma HeapPlaces(g: Geometry, t: nat, n: nat)
    requires HeapRun(g, t, n)
    ensures forall c: nat | t <= c < t + n :: Cluster(c) in Places(g)
  {
  }

  lemma NextOp(ops: seq<Op>, k: nat)
    requires k < |ops|
    ensures ops[..k + 1] == ops[..k] + [ops[k]]
  {
  }

  function WriteOps(destination: nat, bytes: seq<seq<byte>>): (ops: seq<Op>)
    ensures |ops| == |bytes|
  {
    seq(|bytes|, i requires 0 <= i < |bytes| => Write(Cluster(destination + i), bytes[i]))
  }

  lemma WriteOpAt(destination: nat, bytes: seq<seq<byte>>, i: nat)
    requires i < |bytes|
    ensures WriteOps(destination, bytes)[i] == Write(Cluster(destination + i), bytes[i])
    ensures WriteOps(destination, bytes)[..|bytes|] == WriteOps(destination, bytes)
  {
  }

  predicate HoldsAt(img: Image, c: nat, x: seq<byte>) {
    Cluster(c) in img && img[Cluster(c)] == x
  }

  /** The image holds these clusters from t on. */
  predicate ReadFrom(img: Image, t: nat, bytes: seq<seq<byte>>) {
    forall i | 0 <= i < |bytes| :: HoldsAt(img, t + i, bytes[i])
  }

  /** What is read from the source of a copy that does not overlap its destination is what was there at first. */
  lemma SourceKept(a: Image, b: Image, source: nat, destination: nat, n: nat, done: nat, bytes: seq<seq<byte>>)
    requires SameOutside(a, b, PlacesOf(Run(destination, n))) && done + |bytes| <= n
    requires source + n <= destination || destination + n <= source
    requires ReadFrom(b, source + done, bytes)
    ensures ReadFrom(a, source + done, bytes)
  {
    forall i | 0 <= i < |bytes| ensures HoldsAt(a, source + done + i, bytes[i]) {
      assert HoldsAt(b, source + done + i, bytes[i]);
      assert Cluster(source + done + i) !in PlacesOf(Run(destination, n));
    }
  }

  /** A chunk of a copy is the next stretch of its steps. */
  lemma ChunkOps(img: Image, source: nat, destination: nat, n: nat, done: nat, bytes: seq<seq<byte>>)
    requires forall j | 0 <= j < n :: Cluster(Run(source, n)[j]) in img
    requires done + |bytes| <= n && ReadFrom(img, source + done, bytes)
    ensures var ops := CopyOps(img, Run(source, n), Run(destination, n));
            |ops| == n && ops[..done + |bytes|] == ops[..done] + WriteOps(destination + done, bytes)
  {
    forall k | done <= k < done + |bytes|
      ensures CopyOps(img, Run(source, n), Run(destination, n))[k] == WriteOps(destination + done, bytes)[k - done]
    {
      assert HoldsAt(img, source + done + (k - done), bytes[k - done]);
    }
  }

  lemma SubRun(t: nat, n: nat, done: nat, k: nat)
    requires done + k <= n
    ensures PlacesOf(Run(t + done, k)) <= PlacesOf(Run(t, n))
  {
    forall p | p in PlacesOf(Run(t + done, k)) ensures p in PlacesOf(Run(t, n)) {
      assert Run(t, n)[p.number - t] == p.number;
    }
  }

  /** Copying a stretch of the lists takes the same steps, from an image that agrees on what is read. */
  lemma CopySlice(img: Image, img2: Image, from: seq<nat>, to: seq<nat>, a: nat, from2: seq<nat>, to2: seq<nat>)
    requires |from| == |to| && |from2| == |to2| && a + |from2| <= |from|
    requires from2 == from[a..a + |from2|] && to2 == to[a..a + |to2|]
    requires forall j | 0 <= j < |from| :: Cluster(from[j]) in img
    requires forall j | 0 <= j < |from2| ::
               Cluster(from2[j]) in img2 && Cluster(from2[j]) in img
               && img2[Cluster(from2[j])] == img[Cluster(from2[j])]
    ensures CopyOps(img2, from2, to2) == CopyOps(img, from, to)[a..a + |from2|]
  {
  }

  lemma Overlap(a: nat, n: nat, b: nat, m: nat, clusters: seq<nat>, at: nat)
    requires at + n <= |clusters| && clusters[at..at + n] == Run(a, n)
    requires forall j | 0 <= j < |clusters| :: !(b <= clusters[j] < b + m)
    ensures a + n <= b || b + m <= a || n == 0 || m == 0
  {
    forall i | at <= i < at + n ensures clusters[i] == a + (i - at) {
      assert clusters[at..at + n][i - at] == clusters[i];
    }
    var c := if a < b then b else a;
    assert 0 <= c - a < n ==> clusters[at + (c - a)] == c;
  }

  /** The clusters are in the heap and none of them lies in the run from t. */
  predicate ClearOf(g: Geometry, clusters: seq<nat>, t: nat) {
    forall j | 0 <= j < |clusters| :: HeapRun(g, clusters[j], 1) && !(t <= clusters[j] < t + |clusters|)
  }

  /** The longest consecutive run at a position of a cluster list. */
  method RunLength(clusters: seq<nat>, position: nat) returns (run: nat)
    requires position < |clusters|
    ensures 1 <= run && position + run <= |clusters|
    ensures clusters[position..position + run] == Run(clusters[position], run)
  {
    run := 1;
    while position + run < |clusters| && clusters[position + run] == clusters[position] + run
      invariant 1 <= run && position + run <= |clusters|
      invariant forall i | position <= i < position + run :: clusters[i] == clusters[position] + (i - position)
    {
      run := run + 1;
    }
  }

  lemma Stretch(ops: seq<Op>, a: nat, b: nat, done: nat)
    requires a <= b <= |ops| && done <= b - a
    ensures ops[..a] + ops[a..b][..done] == ops[..a + done]
  {
  }

  /** An open target: its contents, the journal file, and the steps taken since it was opened. */
  class Disk {
    const g: Geometry
    ghost const start: Device
    var now: Image
    var journal: Option<seq<Record>>
    ghost var log: seq<Op>

    ghost predicate Valid()
      reads this
    {
      && Sized(g, now) && start.Valid()
      && now == Execute(start, log).now && journal == Execute(start, log).journal
    }

    constructor (g: Geometry, img: Image, journal: Option<seq<Record>>)
      requires Sized(g, img)
      ensures Valid() && this.g == g && now == img && log == [] && start == Settled(img, journal)
              && this.journal == journal
    {
      this.g := g;
      start := Settled(img, journal);
      now := img;
      this.journal := journal;
      log := [];
    }

    /** pwrite of one place. */
    method Put(p: Place, data: seq<byte>)
      requires Valid() && p in Places(g) && |data| == SizeOf(g, p)
      modifies this`now, this`log
      ensures Valid() && now == old(now)[p := data] && log == old(log) + [Write(p, data)]
    {
      RunValid(start, log);
      RunSome(start, log, Write(p, data));
      now := now[p := data];
      log := log + [Write(p, data)];
    }

    method Fsync()
      requires Valid()
      modifies this`log
      ensures Valid() && log == old(log) + [Sync]
    {
      RunSome(start, log, Sync);
      log := log + [Sync];
    }

    method SaveManifest(m: seq<Record>)
      requires Valid()
      modifies this`journal, this`log
      ensures Valid() && journal == Some(m) && log == old(log) + [Publish(m)]
    {
      RunSome(start, log, Publish(m));
      journal := Some(m);
      log := log + [Publish(m)];
    }

    method RemoveManifest()
      requires Valid()
      modifies this`journal, this`log
      ensures Valid() && journal == None && log == old(log) + [Remove]
    {
      RunSome(start, log, Remove);
      journal := None;
      log := log + [Remove];
    }

    // ---- copying --------------------------------------------------------------------------------

    method ReadClusters(source: nat, n: nat) returns (bytes: seq<seq<byte>>)
      requires Valid() && HeapRun(g, source, n)
      ensures |bytes| == n
      ensures ReadFrom(now, source, bytes) && forall i | 0 <= i < n :: |bytes[i]| == g.clusterSize
    {
      HeapPlaces(g, source, n);
      bytes := [];
      for i := 0 to n
        invariant |bytes| == i && ReadFrom(now, source, bytes) && forall k | 0 <= k < i :: |bytes[k]| == g.clusterSize
      {
        bytes := bytes + [now[Cluster(source + i)]];
      }
    }

    /** pwrite of consecutive clusters. */
    method WriteClusters(destination: nat, bytes: seq<seq<byte>>)
      requires Valid() && HeapRun(g, destination, |bytes|) && forall i | 0 <= i < |bytes| :: |bytes[i]| == g.clusterSize
      modifies this`now, this`log
      ensures Valid() && log == old(log) + WriteOps(destination, bytes)
      ensures SameOutside(old(now), now, PlacesOf(Run(destination, |bytes|)))
    {
      hide Execute, WriteOps, Places;
      HeapPlaces(g, destination, |bytes|);
      ghost var ops := WriteOps(destination, bytes);
      for i := 0 to |bytes|
        invariant Valid() && log == old(log) + ops[..i]
        invariant SameOutside(old(now), now, PlacesOf(Run(destination, |bytes|)))
      {
        NextOp(ops, i);
        WriteOpAt(destination, bytes, i);
        assert destination + i in Run(destination, |bytes|) by {
          assert Run(destination, |bytes|)[i] == destination + i;
        }
        assert Cluster(destination + i) in PlacesOf(Run(destination, |bytes|));
        Put(Cluster(destination + i), bytes[i]);
      }
    }

    /** Copying a run of clusters through a buffer, stopping between chunks when asked to. */
    method CopyRange(source: nat, destination: nat, n: nat, buffer: nat, honourStop: bool) returns (stopped: bool,
        done: nat)
      requires Valid() && buffer > 0 && HeapRun(g, source, n) && HeapRun(g, destination, n)
      requires source + n <= destination || destination + n <= source
      modifies this`now, this`log
      ensures Valid() && done <= n && (!stopped ==> done == n) && (stopped ==> honourStop)
      ensures forall j | 0 <= j < n :: Cluster(Run(source, n)[j]) in old(now)
      ensures log == old(log) + CopyOps(old(now), Run(source, n), Run(destination, n))[..done]
      ensures SameOutside(old(now), now, PlacesOf(Run(destination, n)))
    {
      hide Execute, WriteOps, CopyOps, Places, SameOutside, PlacesOf, Sized;
      ClustersThere(g, now, source, n);
      SameItself(now, PlacesOf(Run(destination, n)));
      ghost var ops := CopyOps(now, Run(source, n), Run(destination, n));
      done := 0;
      assert ops[..0] == [];
      while done < n
        invariant Valid() && done <= n <= |ops| && log == old(log) + ops[..done]
        invariant SameOutside(old(now), now, PlacesOf(Run(destination, n)))
      {
        var chunk := if n - done < buffer then n - done else buffer;
        var bytes := ReadClusters(source + done, chunk);
        SourceKept(old(now), now, source, destination, n, done, bytes);
        ChunkOps(old(now), source, destination, n, done, bytes);
        ghost var before := now;
        WriteClusters(destination + done, bytes);
        SubRun(destination, n, done, chunk);
        OutsideGrows(old(now), before, now, PlacesOf(Run(destination + done, chunk)), PlacesOf(Run(destination, n)));
        done := done + chunk;
        if honourStop {
          var stop: bool := *;
          if stop { return true, done; }
        }
      }
      return false, done;
    }

    /** Copying an object's clusters to a run, one consecutive stretch at a time. */
    method CopyObjectToRun(clusters: seq<nat>, target: nat, buffer: nat, honourStop: bool) returns (stopped: bool,
        done: nat)
      requires Valid() && buffer > 0 && HeapRun(g, target, |clusters|)
      requires ClearOf(g, clusters, target)
      modifies this`now, this`log
      ensures Valid() && done <= |clusters| && (!stopped ==> done == |clusters|) && (stopped ==> honourStop)
      ensures forall j | 0 <= j < |clusters| :: Cluster(clusters[j]) in old(now)
      ensures log == old(log) + CopyOps(old(now), clusters, Run(target, |clusters|))[..done]
      ensures SameOutside(old(now), now, PlacesOf(Run(target, |clusters|)))
    {
      hide Execute, CopyOps, Sized, Places, PlacesOf, Run, HeapRun, ClearOf, Apply;
      ClustersPresent(clusters, target);
      ghost var n, ops := |clusters|, CopyOps(now, clusters, Run(target, |clusters|));
      var position := 0;
      while position < |clusters|
        invariant Valid() && position <= n && log == old(log) + ops[..position]
        invariant SameOutside(old(now), now, PlacesOf(Run(target, n)))
      {
        var run := RunLength(clusters, position);
        stopped, done := CopyStretch(old(now), clusters, target, position, run, buffer, honourStop);
        Stretch(ops, position, position + run, done);
        if stopped {
          return true, position + done;
        }
        position := position + run;
      }
      return false, position;
    }

    /** One consecutive stretch of an object's clusters; img is what was on the disk when the copy began. */
    method CopyStretch(ghost img: Image, clusters: seq<nat>, target: nat, position: nat, run: nat, buffer: nat,
        honourStop: bool)
      returns (stopped: bool, done: nat)
      requires Valid() && buffer > 0 && HeapRun(g, target, |clusters|)
      requires ClearOf(g, clusters, target)
      requires 1 <= run && position + run <= |clusters|
               && clusters[position..position + run] == Run(clusters[position], run)
      requires SameOutside(img, now, PlacesOf(Run(target, |clusters|)))
      requires forall j | 0 <= j < |clusters| :: Cluster(clusters[j]) in img
      modifies this`now, this`log
      ensures Valid() && done <= run && (!stopped ==> done == run) && (stopped ==> honourStop)
      ensures log == old(log) + CopyOps(img, clusters, Run(target, |clusters|))[position..position + run][..done]
      ensures SameOutside(img, now, PlacesOf(Run(target, |clusters|)))
    {
      hide Execute, CopyOps, Sized, Places, Valid;
      StretchInHeap(g, clusters, position, run);
      Overlap(clusters[position], run, target + position, run, clusters, position);
      NotTargets(clusters, target);
      RunSlice(target, |clusters|, position, run);
      SourcesAgree(img, now, clusters, target, position, run);
      CopySlice(img, now, clusters, Run(target, |clusters|), position, Run(clusters[position], run),
          Run(target + position, run));
      SubRun(target, |clusters|, position, run);
      stopped, done := CopyRange(clusters[position], target + position, run, buffer, honourStop);
    }

    lemma ClustersPresent(clusters: seq<nat>, t: nat)
      requires Sized(g, now) && ClearOf(g, clusters, t)
      ensures forall j | 0 <= j < |clusters| :: Cluster(clusters[j]) in now
    {
    }

    /** Copying a run back to an object's own clusters. */
    method CopyRunToObject(source: nat, clusters: seq<nat>, buffer: nat)
      requires Valid() && buffer > 0 && HeapRun(g, source, |clusters|)
      requires ClearOf(g, clusters, source)
      modifies this`now, this`log
      ensures Valid()
      ensures forall j | 0 <= j < |clusters| :: Cluster(Run(source, |clusters|)[j]) in old(now)
      ensures log == old(log) + CopyOps(old(now), Run(source, |clusters|), clusters)
      ensures SameOutside(old(now), now, PlacesOf(clusters))
    {
      hide Execute, CopyOps, Sized, Places, PlacesOf, Run, HeapRun, ClearOf, Apply;
      RunPresent(source, |clusters|);
      ghost var n, ops := |clusters|, CopyOps(now, Run(source, |clusters|), clusters);
      var position := 0;
      while position < |clusters|
        invariant Valid() && position <= n && log == old(log) + ops[..position]
        invariant SameOutside(old(now), now, PlacesOf(clusters))
      {
        var run := RunLength(clusters, position);
        BackStretch(old(now), source, clusters, position, run, buffer);
        Stretch(ops, position, position + run, run);
        position := position + run;
      }
      assert ops[..n] == ops;
    }

    /** One consecutive stretch copied back. */
    method BackStretch(ghost img: Image, source: nat, clusters: seq<nat>, position: nat, run: nat, buffer: nat)
      requires Valid() && buffer > 0 && HeapRun(g, source, |clusters|) && ClearOf(g, clusters, source)
      requires 1 <= run && position + run <= |clusters|
               && clusters[position..position + run] == Run(clusters[position], run)
      requires SameOutside(img, now, PlacesOf(clusters))
      requires forall j | 0 <= j < |clusters| :: Cluster(Run(source, |clusters|)[j]) in img
      modifies this`now, this`log
      ensures Valid() && SameOutside(img, now, PlacesOf(clusters))
      ensures var piece := CopyOps(img, Run(source, |clusters|), clusters)[position..position + run];
              piece[..run] == piece && log == old(log) + piece[..run]
    {
      hide Execute, CopyOps, Sized, Places;
      StretchInHeap(g, clusters, position, run);
      Overlap(clusters[position], run, source + position, run, clusters, position);
      RunSlice(source, |clusters|, position, run);
      StagedAgree(img, now, clusters, source, position, run);
      CopySlice(img, now, Run(source, |clusters|), clusters, position, Run(source + position, run),
          Run(clusters[position], run));
      SubList(clusters, position, run);
      var stopped, done := CopyRange(source + position, clusters[position], run, buffer, false);
    }

    // ---- placing --------------------------------------------------------------------------------

    method ReadRun(source: nat, n: nat) returns (data: seq<byte>)
      requires Valid() && HeapRun(g, source, n)
      ensures data == StagedBytes(g, now, source, n)
    {
      hide Execute, StagedBytes;
      HeapPlaces(g, source, n);
      data := [];
      assert data + StagedBytes(g, now, source, n) == StagedBytes(g, now, source, n);
      for i := 0 to n
        invariant data + StagedBytes(g, now, source + i, n - i) == StagedBytes(g, now, source, n)
      {
        StagedStep(g, now, source + i, n - i);
        data := data + now[Cluster(source + i)];
      }
      StagedNothing(g, now, source + n);
      assert data + [] == data;
    }

    /** pwrite of a payload that fills n clusters. */
    method WritePayload(target: nat, n: nat, payload: seq<byte>)
      requires Valid() && HeapRun(g, target, n) && Splits(payload, g.clusterSize, n)
      modifies this`now, this`log
      ensures Valid() && log == old(log) + RunOps(payload, g.clusterSize, target, n)
      ensures SameOutside(old(now), now, PlacesOf(Run(target, n)))
    {
      hide Execute, Sized, Places, RunOps;
      var bytes := [];
      var rest := payload;
      for i := 0 to n
        invariant Valid() && now == old(now) && log == old(log)
        invariant Splits(rest, g.clusterSize, n - i) && |bytes| == i
        invariant forall j: nat | j < n - i :: Piece(rest, g.clusterSize, j) == Piece(payload, g.clusterSize, i + j)
        invariant forall k | 0 <= k < i :: bytes[k] == Piece(payload, g.clusterSize, k) && |bytes[k]| == g.clusterSize
      {
        assert Piece(rest, g.clusterSize, 0) == Piece(payload, g.clusterSize, i + 0);
        bytes := bytes + [rest[..g.clusterSize]];
        PieceTail(rest, payload, g.clusterSize, n, i);
        rest := rest[g.clusterSize..];
      }
      RunOpsAre(payload, g.clusterSize, target, bytes);
      WriteClusters(target, bytes);
    }

    /** One record: files are copied from the workspace, the bitmap is rebuilt, directories are patched. */
    method PlaceRecord(m: seq<Record>, index: nat, buffer: nat, honourStop: bool) returns (ok: bool, stopped: bool,
        done: nat)
      requires Valid() && buffer > 0 && index < |m| && forall k | 0 <= k < |m| :: m[k].target < U32_LIMIT
      requires HeapRun(g, m[index].target, m[index].clusters) && HeapRun(g, m[index].staged, m[index].clusters)
      requires m[index].target + m[index].clusters <= m[index].staged
      modifies this`now, this`log
      ensures Valid() && SameOutside(old(now), now, PlacesOf(Run(m[index].target, m[index].clusters)))
      ensures var r := m[index];
              var p := Payload(m, g.clusterCount, index, StagedBytes(g, old(now), r.staged, r.clusters));
              && ok == p.Some? && done <= r.clusters && (stopped ==> ok && honourStop)
              && (ok && !stopped ==> done == r.clusters)
              && log == old(log) + if ok then RunOps(p.value, g.clusterSize, r.target, r.clusters)[..done] else []
    {
      hide Execute, Places, RunOps, Sized;
      var r := m[index];
      if r.kind != BitmapKind && !r.Directory() {
        FileSteps(g, now, r.staged, r.target, r.clusters);
        stopped, done := CopyRange(r.staged, r.target, r.clusters, buffer, honourStop);
        return true, stopped, done;
      }
      var staged := ReadRun(r.staged, r.clusters);
      StagedSplits(g, now, r.staged, r.clusters);
      var payload := BuildPayload(m, index, staged);
      if payload.None? {
        return false, false, 0;
      }
      SplitsByLength(staged, payload.value, g.clusterSize, r.clusters);
      WritePayload(r.target, r.clusters, payload.value);
      stopped := false;
      if honourStop {
        stopped := *;
      }
      AllOps(payload.value, g.clusterSize, r.target, r.clusters);
      return true, stopped, r.clusters;
    }

    /** The rebuilt payload of the bitmap or of a directory. */
    method BuildPayload(m: seq<Record>, index: nat, staged: seq<byte>) returns (payload: Option<seq<byte>>)
      requires index < |m| && forall k | 0 <= k < |m| :: m[k].target < U32_LIMIT
      requires m[index].kind == BitmapKind || m[index].Directory()
      ensures payload == Payload(m, g.clusterCount, index, staged)
    {
      hide PatchDirectory, ExpectedBitmap;
      if m[index].kind == BitmapKind {
        var ok, bitmap := BuildExpectedBitmap(m, g.clusterCount, m[index].dataLength);
        if !ok || m[index].dataLength > |staged| {
          return None;
        }
        return Some(bitmap[..] + Zeros(|staged| - bitmap.Length));
      }
      var data := new byte[|staged|](i requires 0 <= i < |staged| => staged[i]);
      assert data[..] == staged;
      var patched := PatchDirectoryPayload(m, index, data);
      if !patched {
        return None;
      }
      return Some(data[..]);
    }

    lemma RunPresent(t: nat, n: nat)
      requires Sized(g, now) && HeapRun(g, t, n)
      ensures forall j | 0 <= j < n :: Cluster(Run(t, n)[j]) in now
    {
      HeapPlaces(g, t, n);
    }
  }

  lemma StretchInHeap(g: Geometry, clusters: seq<nat>, position: nat, run: nat)
    requires 1 <= run && position + run <= |clusters|
             && clusters[position..position + run] == Run(clusters[position], run)
    requires forall j | 0 <= j < |clusters| :: HeapRun(g, clusters[j], 1)
    ensures HeapRun(g, clusters[position], run)
  {
    assert clusters[position..position + run][run - 1] == clusters[position + run - 1];
  }

  lemma NotTargets(clusters: seq<nat>, target: nat)
    requires forall j | 0 <= j < |clusters| :: !(target <= clusters[j] < target + |clusters|)
    ensures forall j | 0 <= j < |clusters| :: Cluster(clusters[j]) !in PlacesOf(Run(target, |clusters|))
  {
  }

  lemma RunSlice(t: nat, n: nat, a: nat, k: nat)
    requires a + k <= n
    ensures Run(t, n)[a..a + k] == Run(t + a, k)
  {
  }

  lemma SourcesAgree(img: Image, img2: Image, clusters: seq<nat>, target: nat, position: nat, run: nat)
    requires position + run <= |clusters| && 1 <= run
             && clusters[position..position + run] == Run(clusters[position], run)
    requires SameOutside(img, img2, PlacesOf(Run(target, |clusters|)))
    requires forall j | 0 <= j < |clusters| ::
               Cluster(clusters[j]) in img
               && Cluster(clusters[j]) !in PlacesOf(Run(target, |clusters|))
    ensures var from := Run(clusters[position], run);
            forall j | 0 <= j < run :: Cluster(from[j]) in img2 && Cluster(from[j]) in img
                && img2[Cluster(from[j])] == img[Cluster(from[j])]
  {
    var from := Run(clusters[position], run);
    forall j | 0 <= j < run ensures from[j] == clusters[position + j] {
      assert clusters[position..position + run][j] == clusters[position + j];
    }
  }

  lemma StagedAgree(img: Image, img2: Image, clusters: seq<nat>, source: nat, position: nat, run: nat)
    requires position + run <= |clusters|
    requires SameOutside(img, img2, PlacesOf(clusters))
    requires forall j | 0 <= j < |clusters| :: !(source <= clusters[j] < source + |clusters|)
    requires forall j | 0 <= j < |clusters| :: Cluster(Run(source, |clusters|)[j]) in img
    ensures var from := Run(source + position, run);
            forall j | 0 <= j < run :: Cluster(from[j]) in img2 && Cluster(from[j]) in img
                && img2[Cluster(from[j])] == img[Cluster(from[j])]
  {
    var from := Run(source + position, run);
    forall j | 0 <= j < run ensures Cluster(from[j]) in img && Cluster(from[j]) !in PlacesOf(clusters) {
      assert Run(source, |clusters|)[position + j] == from[j];
    }
  }

  lemma SubList(clusters: seq<nat>, position: nat, run: nat)
    requires 1 <= run && position + run <= |clusters|
             && clusters[position..position + run] == Run(clusters[position], run)
    ensures PlacesOf(Run(clusters[position], run)) <= PlacesOf(clusters)
  {
    forall p | p in PlacesOf(Run(clusters[position], run)) ensures p in PlacesOf(clusters) {
      var j :| 0 <= j < run && Run(clusters[position], run)[j] == p.number;
      assert clusters[position..position + run][j] == clusters[position + j];
    }
  }

  ghost function StagedBytes(g: Geometry, img: Image, source: nat, n: nat): seq<byte>
    requires Sized(g, img) && HeapRun(g, source, n)
  {
    ReadAll(VolumeOf(g, img), Run(source, n))
  }

  lemma StagedStep(g: Geometry, img: Image, source: nat, n: nat)
    requires Sized(g, img) && n > 0 && HeapRun(g, source, n)
    ensures Cluster(source) in img
    ensures StagedBytes(g, img, source, n) == img[Cluster(source)] + StagedBytes(g, img, source + 1, n - 1)
  {
    HeapPlaces(g, source, n);
    assert Run(source, n)[1..] == Run(source + 1, n - 1);
  }

  lemma StagedNothing(g: Geometry, img: Image, source: nat)
    requires Sized(g, img) && HeapRun(g, source, 0)
    ensures StagedBytes(g, img, source, 0) == []
  {
  }

  lemma StagedSplits(g: Geometry, img: Image, source: nat, n: nat)
    requires Sized(g, img) && HeapRun(g, source, n)
    ensures Splits(StagedBytes(g, img, source, n), g.clusterSize, n)
  {
    HeapPlaces(g, source, n);
    ReadSplits(VolumeOf(g, img), Run(source, n));
  }

  /** Copying a file's staged clusters is writing its payload. */
  lemma FileSteps(g: Geometry, img: Image, source: nat, target: nat, n: nat)
    requires Sized(g, img) && HeapRun(g, source, n)
    ensures forall j | 0 <= j < n :: Cluster(Run(source, n)[j]) in img
    ensures CopyOps(img, Run(source, n), Run(target, n))
            == RunOps(StagedBytes(g, img, source, n), g.clusterSize, target, n)
  {
    hide Piece, StagedBytes, Sized, Places;
    forall j: nat | j < n
      ensures Cluster(source + j) in img
              && Piece(StagedBytes(g, img, source, n), g.clusterSize, j) == img[Cluster(source + j)]
    {
      StagedPiece(g, img, source, n, j);
    }
    forall j | 0 <= j < n ensures Cluster(Run(source, n)[j]) in img {
      StagedPiece(g, img, source, n, j);
    }
    var a, b := CopyOps(img, Run(source, n), Run(target, n)),
        RunOps(StagedBytes(g, img, source, n), g.clusterSize, target, n);
    forall j: nat | j < n ensures a[j] == b[j] {
    }
  }

  lemma StagedPiece(g: Geometry, img: Image, source: nat, n: nat, j: nat)
    requires Sized(g, img) && HeapRun(g, source, n) && j < n
    ensures Cluster(source + j) in img
            && Piece(StagedBytes(g, img, source, n), g.clusterSize, j) == img[Cluster(source + j)]
  {
    hide Piece;
    HeapPlaces(g, source, n);
    ReadPiece(VolumeOf(g, img), Run(source, n), j);
  }

  lemma PieceTail(rest: seq<byte>, payload: seq<byte>, size: nat, n: nat, i: nat)
    requires i < n && Splits(rest, size, n - i)
    requires forall j: nat | j < n - i :: Piece(rest, size, j) == Piece(payload, size, i + j)
    ensures size <= |rest|
    ensures forall j: nat | j < n - i - 1 :: Piece(rest[size..], size, j) == Piece(payload, size, i + 1 + j)
  {
    forall j: nat | j < n - i - 1 ensures Piece(rest[size..], size, j) == Piece(payload, size, i + 1 + j) {
      assert Piece(rest, size, j + 1) == Piece(payload, size, i + (j + 1));
    }
  }

  lemma RunOpsAre(payload: seq<byte>, size: nat, target: nat, bytes: seq<seq<byte>>)
    requires forall k | 0 <= k < |bytes| :: bytes[k] == Piece(payload, size, k)
    ensures WriteOps(target, bytes) == RunOps(payload, size, target, |bytes|)
  {
    hide Piece;
  }

  lemma AllOps(payload: seq<byte>, size: nat, target: nat, n: nat)
    ensures RunOps(payload, size, target, n)[..n] == RunOps(payload, size, target, n)
  {
    hide Piece;
  }
}
