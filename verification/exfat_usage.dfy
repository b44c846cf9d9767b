/** How much of the heap is in use: what the boot copies say of it, and what the bitmap does. */
module ExfatUsage {
  import opened Bytes
  import opened ExfatVolume
  import opened ExfatScan
  import opened ExfatManifest
  import opened ExfatCanonical
  import opened ExfatRelaid
  import opened ExfatProtocol
  import opened ExfatJob
  import opened Wrappers

  /** The clusters that the bitmap allocates. */
  function AllocatedClusters(bitmap: seq<byte>, clusterCount: nat): set<nat> {
    set c: nat | 2 <= c < clusterCount + 2 && Allocated(bitmap, c)
  }

  /** The clusters of the first n objects. */
  function OwnedClusters(objects: seq<Obj>, n: nat): set<nat>
    requires n <= |objects|
  {
    if n == 0 then {} else OwnedClusters(objects, n - 1) + Elements(objects[n - 1].clusters)
  }

  lemma {:induction false} OwnedMeans(objects: seq<Obj>, n: nat, c: nat)
    requires n <= |objects|
    ensures c in OwnedClusters(objects, n) <==> exists i | 0 <= i < n :: Owns(objects, i, c)
  {
    if n > 0 {
      OwnedMeans(objects, n - 1, c);
      assert c in Elements(objects[n - 1].clusters) <==> Owns(objects, n - 1, c);
    }
  }

  lemma {:induction false} ElementsSize(s: seq<nat>)
    requires NoRepeats(s)
    ensures |Elements(s)| == |s|
  {
    if s == [] {
      assert Elements(s) == {};
    } else {
      var front, last := s[..|s| - 1], s[|s| - 1];
      ElementsSize(front);
      assert Elements(s) == Elements(front) + {last};
      assert last !in Elements(front);
    }
  }

  lemma {:induction false} OwnedSize(objects: seq<Obj>, n: nat)
    requires n <= |objects| && Disjoint(objects)
    ensures |OwnedClusters(objects, n)| == ClusterTotal(objects, n)
  {
    if n > 0 {
      OwnedSize(objects, n - 1);
      ElementsSize(objects[n - 1].clusters);
      LastApart(objects, n);
    }
  }

  lemma LastApart(objects: seq<Obj>, n: nat)
    requires 0 < n <= |objects| && Disjoint(objects)
    ensures OwnedClusters(objects, n - 1) !! Elements(objects[n - 1].clusters)
  {
    var last: nat := n - 1;
    var before := OwnedClusters(objects, last);
    forall c: nat ensures c in before ==> !Owns(objects, last, c) {
      OwnedMeans(objects, last, c);
    }
  }

  /** In a scanned volume the objects have as many clusters as the bitmap allocates. */
  lemma TotalIsAllocated(v: Volume, cat: Catalogue)
    requires Scans(v, cat)
    ensures ClusterTotal(cat.objects, |cat.objects|) == |AllocatedClusters(cat.bitmap, v.clusterCount)|
  {
    hide ReadCatalogue, Allocated, ReadAll;
    ScanUnderstands(v, cat);
    var owned := OwnedClusters(cat.objects, |cat.objects|);
    OwnedSize(cat.objects, |cat.objects|);
    forall c: nat ensures c in owned <==> c in AllocatedClusters(cat.bitmap, v.clusterCount) {
      OwnedMeans(cat.objects, |cat.objects|, c);
      if i :| 0 <= i < |cat.objects| && Owns(cat.objects, i, c) {
        assert InHeap(v, cat.objects[i]);
      }
    }
    assert owned == AllocatedClusters(cat.bitmap, v.clusterCount);
  }

  lemma {:induction false} AtMostHeap(bitmap: seq<byte>, n: nat)
    ensures |AllocatedClusters(bitmap, n)| <= n
  {
    hide Allocated;
    var all := AllocatedClusters(bitmap, n);
    if n == 0 {
      assert all == {};
    } else {
      AtMostHeap(bitmap, n - 1);
      assert all == AllocatedClusters(bitmap, n - 1) + (if Allocated(bitmap, n + 1) then {n + 1} else {});
    }
  }

  /** The committed boot copies say which percentage of the heap is allocated, rounded down. */
  lemma PercentIsUsage(e: Job, cat: Catalogue)
    requires Ready(e) && Built(e, cat)
    ensures var used := |AllocatedClusters(cat.bitmap, e.g.clusterCount)|;
            used <= e.g.clusterCount && Share(Percent(e), 100 * used, e.g.clusterCount)
  {
    hide *;
    BuiltScan(e, cat);
    var v := VolumeOf(e.g, e.orig);
    TotalIsAllocated(v, cat);
    BuiltTotals(e, cat);
    AtMostHeap(cat.bitmap, v.clusterCount);
    HeapNotEmpty(v);
    PercentShare(e);
  }

  lemma HeapNotEmpty(v: Volume)
    requires v.Valid()
    ensures v.clusterCount >= 1
  {
  }

  /** p is a divided by n, rounded down. */
  predicate Share(p: nat, a: nat, n: nat) {
    p * n <= a < (p + 1) * n
  }

  lemma PercentShare(e: Job)
    requires 1 <= e.g.clusterCount && Total(e.lists, |e.lists|) <= e.g.clusterCount
    ensures Share(Percent(e), 100 * Total(e.lists, |e.lists|), e.g.clusterCount)
  {
    hide Total;
    var a, n := Total(e.lists, |e.lists|) * 100, e.g.clusterCount;
    var p := a / n;
    assert a == p * n + a % n;
    assert (p + 1) * n == p * n + n;
    AtLeast(p - 100, n);
    assert (p - 100) * n == p * n - 100 * n;
  }

  lemma BuiltTotals(e: Job, cat: Catalogue)
    requires Built(e, cat)
    ensures Total(e.lists, |e.lists|) == ClusterTotal(cat.objects, |cat.objects|)
  {
    hide Scans, SystemApart, Payload, FinalFat, Populate;
    TotalsAgree(cat.objects, e.lists, |e.lists|);
  }
}
