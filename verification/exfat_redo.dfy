/** The redo commit: copying a verified stage image over the target in ascending ranges, resumable from a
    journaled offset. */
module ExfatRedo {

  /** Bytes start .. end - 1 of the volume. */
  datatype Range = Range(start: nat, end: nat)

  predicate Inside(r: Range, o: int) {
    r.start <= o < r.end
  }

  predicate InRanges(rs: seq<Range>, o: int) {
    exists i | 0 <= i < |rs| :: Inside(rs[i], o)
  }

  /** Non-empty ranges in increasing order without overlap. */
  predicate Ascending(rs: seq<Range>) {
    && (forall i | 0 <= i < |rs| :: rs[i].start < rs[i].end)
    && (forall i, j | 0 <= i < j < |rs| :: rs[i].end <= rs[j].start)
  }

  /** How much of a range lies below an offset. */
  function Below(r: Range, offset: nat): nat {
    if offset <= r.start then 0 else if offset < r.end then offset - r.start else if r.start < r.end
        then r.end - r.start else 0
  }

  /** How many bytes of the ranges lie below an offset. */
  function Before(rs: seq<Range>, offset: nat): nat {
    if rs == [] then 0 else Below(rs[0], offset) + Before(rs[1..], offset)
  }

  function Length(rs: seq<Range>): nat {
    if rs == [] then 0 else (if rs[0].start < rs[0].end then rs[0].end - rs[0].start else 0) + Length(rs[1..])
  }

  ghost function BytesBelow(rs: seq<Range>, offset: nat): set<nat> {
    set o: nat | o < offset && InRanges(rs, o)
  }

  lemma {:induction false} Interval(a: nat, b: nat) returns (s: set<nat>)
    requires a <= b
    ensures (forall o: nat :: o in s <==> a <= o < b) && |s| == b - a
  {
    if a == b {
      s := {};
    } else {
      var t := Interval(a, b - 1);
      s := t + {b - 1};
    }
  }

  /** On ascending ranges Before counts the body bytes below the offset, each once. */
  lemma {:induction false} BeforeCounts(rs: seq<Range>, offset: nat)
    requires Ascending(rs)
    ensures Before(rs, offset) == |BytesBelow(rs, offset)|
  {
    if rs == [] {
      assert BytesBelow(rs, offset) == {};
    } else {
      hide InRanges, Ascending;
      var r, rest := rs[0], rs[1..];
      AscendingRest(rs);
      BeforeCounts(rest, offset);
      var here := Interval(r.start, r.start + Below(r, offset));
      BytesSplit(rs, offset, here);
    }
  }

  lemma AscendingRest(rs: seq<Range>)
    requires Ascending(rs) && rs != []
    ensures Ascending(rs[1..]) && rs[0].start < rs[0].end
  {
  }

  lemma BytesSplit(rs: seq<Range>, offset: nat, here: set<nat>)
    requires Ascending(rs) && rs != []
    requires forall o: nat :: o in here <==> rs[0].start <= o < rs[0].start + Below(rs[0], offset)
    ensures BytesBelow(rs, offset) == here + BytesBelow(rs[1..], offset) && here !! BytesBelow(rs[1..], offset)
  {
    hide InRanges, Ascending;
    AscendingRest(rs);
    forall o: nat ensures o in BytesBelow(rs, offset) <==> o in here || o in BytesBelow(rs[1..], offset) {
      SplitFirst(rs, o);
    }
    forall o | o in here ensures o !in BytesBelow(rs[1..], offset) {
      LaterAbove(rs, o);
    }
  }

  lemma SplitFirst(rs: seq<Range>, o: int)
    requires rs != []
    ensures InRanges(rs, o) <==> Inside(rs[0], o) || InRanges(rs[1..], o)
  {
    if i :| 0 <= i < |rs| && Inside(rs[i], o) {
      if i > 0 { assert Inside(rs[1..][i - 1], o); }
    }
    if i :| 0 <= i < |rs[1..]| && Inside(rs[1..][i], o) {
      assert Inside(rs[i + 1], o);
    }
  }

  lemma LaterAbove(rs: seq<Range>, o: int)
    requires Ascending(rs) && rs != [] && o < rs[0].end
    ensures !InRanges(rs[1..], o)
  {
    forall i | 0 <= i < |rs[1..]| ensures !Inside(rs[1..][i], o) {
      assert rs[1..][i] == rs[i + 1];
    }
  }

  /** Far enough, everything is below. */
  lemma {:induction false} BeforeAll(rs: seq<Range>, offset: nat)
    requires forall i | 0 <= i < |rs| :: rs[i].end <= offset
    ensures Before(rs, offset) == Length(rs)
  {
    if rs != [] { BeforeAll(rs[1..], offset); }
  }

  lemma {:induction false} NothingBefore(rs: seq<Range>, offset: nat)
    requires forall i | 0 <= i < |rs| :: offset <= rs[i].start
    ensures Before(rs, offset) == 0
  {
    if rs != [] { NothingBefore(rs[1..], offset); }
  }

  // ---- the ranges of a volume -------------------------------------------------------------------

  /** Geometry and allocation of the stage; alloc[c] is cluster c + 2. */
  datatype Body = Body(bootLength: nat, fatOffset: nat, fatLength: nat, heapOffset: nat, clusterSize: nat,
      alloc: seq<bool>)
  {
    /** The regions lie behind one another: boot, FAT, heap. */
    predicate Valid() {
      && bootLength <= fatOffset && 0 < fatLength && fatOffset + fatLength <= heapOffset
      && 0 < clusterSize
    }

    function Offset(c: nat): nat {
      heapOffset + c * clusterSize
    }

    function End(): nat {
      Offset(|alloc|)
    }

    function FatRange(): Range {
      Range(fatOffset, fatOffset + fatLength)
    }
  }

  /** End of the allocated run that starts at c. */
  function RunEnd(alloc: seq<bool>, c: nat): (e: nat)
    requires c <= |alloc|
    ensures c <= e <= |alloc| && (forall k | c <= k < e :: alloc[k]) && (e < |alloc| ==> !alloc[e])
    decreases |alloc| - c
  {
    if c < |alloc| && alloc[c] then RunEnd(alloc, c + 1) else c
  }

  /** The maximal allocated runs from cluster c on, as byte ranges. */
  function RunsFrom(b: Body, c: nat): seq<Range>
    requires c <= |b.alloc|
    decreases |b.alloc| - c
  {
    if c == |b.alloc| then []
    else if !b.alloc[c] then RunsFrom(b, c + 1)
    else
      var e := RunEnd(b.alloc, c);
      [Range(b.Offset(c), b.Offset(e))] + RunsFrom(b, e)
  }

  /** Everything a commit writes between the two boot updates. */
  function Ranges(b: Body): seq<Range> {
    [b.FatRange()] + RunsFrom(b, 0)
  }

  function Count(alloc: seq<bool>, c: nat): nat
    requires c <= |alloc|
    decreases |alloc| - c
  {
    if c == |alloc| then 0 else (if alloc[c] then 1 else 0) + Count(alloc, c + 1)
  }

  lemma OffsetsGrow(b: Body, c: nat, d: nat)
    requires c <= d
    ensures b.Offset(c) <= b.Offset(d)
    ensures c < d && b.clusterSize > 0 ==> b.Offset(c) < b.Offset(d)
    ensures b.Offset(d) - b.Offset(c) == (d - c) * b.clusterSize
  {
    assert d * b.clusterSize == c * b.clusterSize + (d - c) * b.clusterSize;
    if c < d && b.clusterSize > 0 {
      MulPositive(d - c, b.clusterSize);
    }
  }

  lemma MulPositive(a: nat, b: nat)
    requires a > 0 && b > 0
    ensures a * b > 0
  {
  }

  lemma {:induction false} RunsAscend(b: Body, c: nat)
    requires b.Valid() && c <= |b.alloc|
    ensures Ascending(RunsFrom(b, c))
    ensures forall i | 0 <= i < |RunsFrom(b, c)| ::
              b.Offset(c) <= RunsFrom(b, c)[i].start && RunsFrom(b, c)[i].end <= b.End()
    decreases |b.alloc| - c
  {
    if c < |b.alloc| {
      if b.alloc[c] {
        var e := RunEnd(b.alloc, c);
        OffsetsGrow(b, c, e);
        OffsetsGrow(b, e, |b.alloc|);
        RunsAscend(b, e);
      } else {
        OffsetsGrow(b, c, c + 1);
        RunsAscend(b, c + 1);
      }
    }
  }

  lemma RangesAscend(b: Body)
    requires b.Valid()
    ensures Ascending(Ranges(b))
    ensures forall i | 0 <= i < |Ranges(b)| :: b.bootLength <= Ranges(b)[i].start && Ranges(b)[i].end <= b.End()
  {
    RunsAscend(b, 0);
    OffsetsGrow(b, 0, |b.alloc|);
  }

  lemma {:induction false} CountRun(alloc: seq<bool>, c: nat, e: nat)
    requires c <= e <= |alloc| && forall k | c <= k < e :: alloc[k]
    ensures Count(alloc, c) == (e - c) + Count(alloc, e)
    decreases e - c
  {
    if c < e { CountRun(alloc, c + 1, e); }
  }

  lemma SumTimes(x: int, y: int, z: int)
    ensures (x + y) * z == x * z + y * z
  {
  }

  lemma {:induction false} RunsLength(b: Body, c: nat)
    requires b.Valid() && c <= |b.alloc|
    ensures Length(RunsFrom(b, c)) == Count(b.alloc, c) * b.clusterSize
    decreases |b.alloc| - c
  {
    if c < |b.alloc| {
      if b.alloc[c] {
        var e := RunEnd(b.alloc, c);
        CountRun(b.alloc, c, e);
        OffsetsGrow(b, c, e);
        RunsLength(b, e);
        assert RunsFrom(b, c)[1..] == RunsFrom(b, e);
        SumTimes(e - c, Count(b.alloc, e), b.clusterSize);
      } else {
        RunsLength(b, c + 1);
      }
    }
  }

  /** The ranges are the FAT and exactly the bytes of the allocated clusters. */
  lemma {:induction false} RunsCover(b: Body, c: nat, k: nat, o: int)
    requires b.Valid() && c <= k < |b.alloc| && b.Offset(k) <= o < b.Offset(k + 1)
    ensures InRanges(RunsFrom(b, c), o) <==> b.alloc[k]
    decreases |b.alloc| - c
  {
    var rs := RunsFrom(b, c);
    if b.alloc[c] {
      var e := RunEnd(b.alloc, c);
      assert rs[1..] == RunsFrom(b, e) && rs[0] == Range(b.Offset(c), b.Offset(e));
      SplitFirst(rs, o);
      OffsetsGrow(b, c, k);
      if k < e {
        OffsetsGrow(b, k + 1, e);
      } else {
        OffsetsGrow(b, e, k);
        RunsCover(b, e, k, o);
      }
    } else if k == c {
      OffsetsGrow(b, c, c + 1);
      NoneBelow(b, c + 1, o);
    } else {
      RunsCover(b, c + 1, k, o);
    }
  }

  lemma NoneBelow(b: Body, c: nat, o: int)
    requires b.Valid() && c <= |b.alloc| && o < b.Offset(c)
    ensures !InRanges(RunsFrom(b, c), o)
  {
    RunsAscend(b, c);
  }

  lemma RunsStep(b: Body, c: nat)
    requires c < |b.alloc|
    ensures !b.alloc[c] ==> RunsFrom(b, c) == RunsFrom(b, c + 1)
    ensures b.alloc[c] ==> var e := RunEnd(b.alloc, c);
              RunsFrom(b, c) != [] && RunsFrom(b, c)[0] == Range(b.Offset(c), b.Offset(e))
                  && RunsFrom(b, c)[1..] == RunsFrom(b, e)
  {
  }

  lemma FirstRange(b: Body, resume: nat)
    requires b.Valid()
    ensures Ranges(b) != [] && Ranges(b)[0] == b.FatRange() && Ranges(b)[1..] == RunsFrom(b, 0)
    ensures Length(Ranges(b)) == b.fatLength + Length(RunsFrom(b, 0))
    ensures Before(Ranges(b), resume) == Below(b.FatRange(), resume) + Before(RunsFrom(b, 0), resume)
  {
    assert Ranges(b)[1..] == RunsFrom(b, 0);
  }

  lemma TailStep(rs: seq<Range>, i: nat, resume: nat)
    requires i < |rs|
    ensures Length(rs[i..]) == (if rs[i].start < rs[i].end then rs[i].end - rs[i].start else 0) + Length(rs[i + 1..])
    ensures Before(rs[i..], resume) == Below(rs[i], resume) + Before(rs[i + 1..], resume)
  {
    assert rs[i..][1..] == rs[i + 1..];
  }

  lemma TotalIsLength(b: Body)
    requires b.Valid()
    ensures b.fatLength + Count(b.alloc, 0) * b.clusterSize == Length(Ranges(b))
  {
    FirstRange(b, 0);
    RunsLength(b, 0);
  }

  lemma InsideIsIn(rs: seq<Range>, i: nat)
    requires i < |rs|
    ensures forall o | Inside(rs[i], o) :: InRanges(rs, o)
  {
  }

  lemma NoRunsLeft(b: Body, rs: seq<Range>, i: nat, resume: nat)
    requires i <= |rs| && rs[i..] == RunsFrom(b, |b.alloc|)
    ensures i == |rs| && Length(rs[i..]) == 0 && Before(rs[i..], resume) == 0
  {
  }

  // ---- counting what is committed ---------------------------------------------------------------

  /** The program's count of committed body bytes, with its early exits. */
  method CommittedBefore(b: Body, offset: nat) returns (complete: nat)
    requires b.Valid()
    ensures complete == Before(Ranges(b), offset)
  {
    complete := 0;
    var fatEnd := b.fatOffset + b.fatLength;
    if offset > b.fatOffset {
      var upto := if offset < fatEnd then offset else fatEnd;
      if upto > b.fatOffset { complete := complete + (upto - b.fatOffset); }
    }
    assert Ranges(b)[1..] == RunsFrom(b, 0);
    var cluster := 0;
    while cluster < |b.alloc|
      invariant cluster <= |b.alloc|
      invariant complete + Before(RunsFrom(b, cluster), offset) == Before(Ranges(b), offset)
    {
      if !b.alloc[cluster] {
        cluster := cluster + 1;
        continue;
      }
      var first := cluster;
      cluster := NextFree(b, cluster);
      var start, end := b.Offset(first), b.Offset(cluster);
      assert RunsFrom(b, first)[1..] == RunsFrom(b, cluster);
      OffsetsGrow(b, first, cluster);
      RunsAscend(b, cluster);
      if offset <= start {
        NothingBefore(RunsFrom(b, cluster), offset);
        break;
      }
      var upto := if offset < end then offset else end;
      if upto > start { complete := complete + (upto - start); }
      if offset < end {
        NothingBefore(RunsFrom(b, cluster), offset);
        break;
      }
    }
  }

  method NextFree(b: Body, first: nat) returns (cluster: nat)
    requires first < |b.alloc| && b.alloc[first]
    ensures cluster == RunEnd(b.alloc, first) && first < cluster <= |b.alloc|
  {
    cluster := first;
    while cluster < |b.alloc| && b.alloc[cluster]
      invariant first <= cluster <= |b.alloc| && RunEnd(b.alloc, first) == RunEnd(b.alloc, cluster)
    {
      cluster := cluster + 1;
    }
  }

  method AllocatedCount(b: Body) returns (n: nat)
    ensures n == Count(b.alloc, 0)
  {
    n := 0;
    for c := 0 to |b.alloc|
      invariant n + Count(b.alloc, c) == Count(b.alloc, 0)
    {
      if b.alloc[c] { n := n + 1; }
    }
  }
}
