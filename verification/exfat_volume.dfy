/** An opened exFAT volume: geometry, FAT bytes and cluster heap, and the cluster-chain reader. */
module ExfatVolume {
  import opened Bytes
  import opened Wrappers

  const EOC_MIN := 0xFFFF_FFF8
  const EOC := 0xFFFF_FFFF
  const BAD_CLUSTER := 0xFFFF_FFF7

  // Section 3.1.9 of the exFAT specification: at most 2^32 - 11 clusters.
  const MAX_CLUSTERS := 0xFFFF_FFF5

  /** heap[c] is the content of cluster c; entries 0 and 1 are not clusters. */
  datatype Volume = Volume(
    clusterSize: nat,
    clusterCount: nat,
    fat: seq<byte>,
    heap: seq<seq<byte>>,
    root: nat)
  {
    /** What opening a volume has checked about the geometry. */
    predicate Valid() {
      && 512 <= clusterSize && clusterSize % 32 == 0
      && 1 <= clusterCount <= MAX_CLUSTERS
      && |fat| >= 4 * (clusterCount + 2)
      && |heap| == clusterCount + 2
      && (forall c | 2 <= c < |heap| :: |heap[c]| == clusterSize)
      && InHeap(root)
    }

    predicate InHeap(c: int) {
      2 <= c < clusterCount + 2
    }

    function FatGet(c: nat): nat
      requires Valid() && InHeap(c)
    {
      U32(fat, 4 * c)
    }

    function HeapSet(): set<nat> {
      set c: nat | 2 <= c < clusterCount + 2 && InHeap(c)
    }
  }

  function Elements(s: seq<nat>): set<nat> {
    set x | x in s
  }

  /** The FAT walk from a cluster, having already collected out. */
  function Follow(v: Volume, cluster: nat, out: seq<nat>, known: bool, count: nat): Result<seq<nat>>
    requires v.Valid()
    requires forall c | c in out :: v.InHeap(c)
    decreases v.HeapSet() - Elements(out)
  {
    if 2 <= cluster < EOC_MIN then
      if !v.InHeap(cluster) then Err("exFAT FAT chain exceeds the heap")
      else if cluster in out then Err("exFAT FAT loop")
      else
        var longer := out + [cluster];
        var next := v.FatGet(cluster);
        if known && |longer| == count then
          if next < EOC_MIN then Err("exFAT FAT chain is longer than DataLength") else Ok(longer)
        else if next == BAD_CLUSTER then Err("exFAT chain contains a bad cluster")
        else
          assert cluster in v.HeapSet() - Elements(out);
          assert cluster in Elements(longer);
          Follow(v, next, longer, known, count)
    else if known && |out| != count then Err("short exFAT FAT chain")
    else Ok(out)
  }

  /** The cluster list of a stream. */
  function Chain(v: Volume, first: nat, count: nat, known: bool, contiguous: bool): Result<seq<nat>>
    requires v.Valid()
  {
    if first == 0 then
      if known && count != 0 then Err("zero exFAT first cluster has nonzero length") else Ok([])
    else if !v.InHeap(first) then Err("exFAT first cluster is outside the heap")
    else if contiguous then
      if !known then Err("contiguous exFAT stream has unknown length")
      else if count > v.clusterCount || first + count > v.clusterCount + 2 then
        Err("contiguous exFAT stream exceeds the heap")
      else Ok(Run(first, count))
    else Follow(v, first, [], known, count)
  }

  /** A FAT path: in-heap clusters without repeats, each linked to the next by the FAT, properly ended. */
  ghost predicate IsFatPath(v: Volume, first: nat, path: seq<nat>, known: bool, count: nat)
    requires v.Valid()
  {
    && |path| > 0 && path[0] == first
    && (forall i | 0 <= i < |path| :: v.InHeap(path[i]))
    && NoRepeats(path)
    && (forall i | 0 <= i < |path| - 1 :: v.FatGet(path[i]) == path[i + 1])
    && var last := v.FatGet(path[|path| - 1]);
       if known then |path| == count && last >= EOC_MIN else last < 2 || last >= EOC_MIN
  }

  lemma {:induction false} FollowSound(v: Volume, cluster: nat, out: seq<nat>, known: bool, count: nat, first: nat)
    requires v.Valid()
    requires forall c | c in out :: v.InHeap(c)
    requires NoRepeats(out)
    requires out != [] ==> out[0] == first && v.FatGet(out[|out| - 1]) == cluster
    requires out == [] ==> cluster == first && v.InHeap(cluster)
    requires forall i | 0 <= i < |out| - 1 :: v.FatGet(out[i]) == out[i + 1]
    requires known && out != [] ==> |out| != count
    requires Follow(v, cluster, out, known, count).Ok?
    ensures IsFatPath(v, first, Follow(v, cluster, out, known, count).value, known, count)
    decreases v.HeapSet() - Elements(out)
  {
    if 2 <= cluster < EOC_MIN {
      var longer := out + [cluster];
      var next := v.FatGet(cluster);
      if !(known && |longer| == count) {
        assert cluster in v.HeapSet() - Elements(out);
        assert cluster in Elements(longer);
        FollowSound(v, next, longer, known, count, first);
      }
    }
  }

  lemma {:induction false} FollowComplete(v: Volume, path: seq<nat>, n: nat, known: bool, count: nat)
    requires v.Valid() && n < |path|
    requires IsFatPath(v, path[0], path, known, count)
    ensures Follow(v, path[n], path[..n], known, count) == Ok(path)
    decreases |path| - n
  {
    assert path[..n] + [path[n]] == path[..n + 1];
    assert path[n] !in path[..n];
    if n + 1 < |path| {
      FollowComplete(v, path, n + 1, known, count);
    } else {
      assert path[..n + 1] == path;
    }
  }

  /** Reading a FAT chain succeeds exactly on the FAT paths, and returns the path. */
  lemma FatChainExact(v: Volume, first: nat, count: nat, known: bool, path: seq<nat>)
    requires v.Valid() && v.InHeap(first)
    ensures Chain(v, first, count, known, false) == Ok(path) <==> IsFatPath(v, first, path, known, count)
  {
    var r := Chain(v, first, count, known, false);
    if r.Ok? {
      FollowSound(v, first, [], known, count, first);
    }
    if IsFatPath(v, first, path, known, count) {
      FollowComplete(v, path, 0, known, count);
      assert path[..0] == [];
    }
  }

  /** The clusters of a stream: none for a zero first cluster, a run inside the heap, or a FAT path. */
  ghost predicate IsChain(v: Volume, first: nat, path: seq<nat>, known: bool, count: nat, contiguous: bool)
    requires v.Valid()
  {
    if first == 0 then path == [] && (known ==> count == 0)
    else if contiguous then v.InHeap(first) && known && path == Run(first, count) && forall c | c in path :: v.InHeap(c)
    else v.InHeap(first) && IsFatPath(v, first, path, known, count)
  }

  /** Reading a cluster list, in every mode, succeeds exactly on such a list, and returns it. */
  lemma ChainExact(v: Volume, first: nat, count: nat, known: bool, contiguous: bool, path: seq<nat>)
    requires v.Valid()
    ensures Chain(v, first, count, known, contiguous) == Ok(path) <==> IsChain(v, first, path, known, count, contiguous)
  {
    if first != 0 && v.InHeap(first) {
      if contiguous {
        if count > 0 {
          assert Run(first, count)[count - 1] == first + (count - 1);
          assert first + (count - 1) in Run(first, count);
        }
      } else {
        FatChainExact(v, first, count, known, path);
      }
    }
  }

  /** Whatever the mode, a chain lists in-heap clusters without repeats, from the first one. */
  lemma ChainShape(v: Volume, first: nat, count: nat, known: bool, contiguous: bool)
    requires v.Valid() && Chain(v, first, count, known, contiguous).Ok?
    ensures var p := Chain(v, first, count, known, contiguous).value;
            && NoRepeats(p)
            && (forall i | 0 <= i < |p| :: v.InHeap(p[i]))
            && (known ==> |p| == count)
            && (p != [] ==> p[0] == first)
  {
    if first != 0 && !contiguous {
      FatChainExact(v, first, count, known, Chain(v, first, count, known, false).value);
    }
  }

  method ReadChain(v: Volume, first: nat, count: nat, known: bool, contiguous: bool)
    returns (r: Result<seq<nat>>)
    requires v.Valid()
    ensures r == Chain(v, first, count, known, contiguous)
  {
    if first == 0 {
      if known && count != 0 {
        return Err("zero exFAT first cluster has nonzero length");
      }
      return Ok([]);
    }
    if !v.InHeap(first) {
      return Err("exFAT first cluster is outside the heap");
    }
    var out: seq<nat> := [];
    if contiguous {
      if !known {
        return Err("contiguous exFAT stream has unknown length");
      }
      if count > v.clusterCount || first + count > v.clusterCount + 2 {
        return Err("contiguous exFAT stream exceeds the heap");
      }
      for i := 0 to count
        invariant out == Run(first, i)
      {
        out := out + [first + i];
      }
      return Ok(out);
    }
    var seen := new bool[v.clusterCount](_ => false);
    var cluster: nat := first;
    while 2 <= cluster < EOC_MIN
      invariant forall c | c in out :: v.InHeap(c)
      invariant forall b | 0 <= b < seen.Length :: seen[b] <==> b + 2 in out
      invariant Follow(v, cluster, out, known, count) == Chain(v, first, count, known, contiguous)
      decreases v.HeapSet() - Elements(out)
    {
      if cluster >= v.clusterCount + 2 {
        return Err("exFAT FAT chain exceeds the heap");
      }
      if seen[cluster - 2] {
        return Err("exFAT FAT loop");
      }
      seen[cluster - 2] := true;
      ghost var shorter := out;
      out := out + [cluster];
      assert cluster in v.HeapSet() - Elements(shorter) && cluster in Elements(out);
      if known && |out| == count {
        var next := v.FatGet(cluster);
        if next < EOC_MIN {
          return Err("exFAT FAT chain is longer than DataLength");
        }
        return Ok(out);
      }
      cluster := v.FatGet(cluster);
      if cluster == BAD_CLUSTER {
        return Err("exFAT chain contains a bad cluster");
      }
    }
    if known && |out| != count {
      return Err("short exFAT FAT chain");
    }
    return Ok(out);
  }

  /** Number of maximal consecutive runs in a cluster list. */
  function Fragments(s: seq<nat>): nat {
    if |s| <= 1 then |s|
    else Fragments(s[..|s| - 1]) + if s[|s| - 1] != s[|s| - 2] + 1 then 1 else 0
  }

  method CountFragments(s: seq<nat>) returns (f: nat)
    ensures f == Fragments(s)
  {
    if |s| == 0 {
      return 0;
    }
    f := 1;
    assert s[..1] == [s[0]];
    for i := 1 to |s|
      invariant f == Fragments(s[..i])
    {
      assert s[..i + 1][..i] == s[..i];
      if s[i] != s[i - 1] + 1 {
        f := f + 1;
      }
    }
    assert s[..|s|] == s;
  }

  /** One fragment means one run. */
  lemma {:induction false} OneFragmentIsRun(s: seq<nat>)
    ensures |s| > 0 ==> Fragments(s) >= 1
    ensures |s| > 0 ==> (Fragments(s) == 1 <==> s == Run(s[0], |s|))
  {
    if |s| > 1 {
      var front := s[..|s| - 1];
      OneFragmentIsRun(front);
      if Fragments(s) == 1 {
        assert forall i | 0 <= i < |front| :: s[i] == front[i] == s[0] + i;
      }
      if s == Run(s[0], |s|) {
        assert front == Run(s[0], |s| - 1);
      }
    }
  }
}
