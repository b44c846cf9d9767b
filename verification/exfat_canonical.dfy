/** The canonical bitmap, FAT and payloads that a manifest determines. */
module ExfatCanonical {
  import opened Bytes
  import opened ExfatVolume
  import opened ExfatScan
  import opened ExfatManifest
  import opened Wrappers

  predicate InTarget(r: Record, c: int) {
    r.target <= c < r.target + r.clusters
  }

  predicate InTargets(m: seq<Record>, n: nat, c: int)
    requires n <= |m|
  {
    exists i | 0 <= i < n :: InTarget(m[i], c)
  }

  // ---- allocation bitmap ------------------------------------------------------------------------

  function SetCluster(bitmap: seq<byte>, cluster: nat): (r: seq<byte>)
    requires 2 <= cluster < 2 + 8 * |bitmap|
    ensures |r| == |bitmap|
  {
    var bit := cluster - 2;
    SetBitIsByte(bitmap[bit / 8], bit % 8);
    bitmap[bit / 8 := SetBit(bitmap[bit / 8], bit % 8)]
  }

  /** The in-place form: the byte that holds the cluster's bit is updated. */
  method BitmapSet(bitmap: array<byte>, cluster: nat)
    requires 2 <= cluster < 2 + 8 * bitmap.Length
    modifies bitmap
    ensures bitmap[..] == SetCluster(old(bitmap[..]), cluster)
  {
    var bit := cluster - 2;
    SetBitIsByte(bitmap[bit / 8], bit % 8);
    bitmap[bit / 8] := SetBit(bitmap[bit / 8], bit % 8);
  }

  lemma SetClusterReads(bitmap: seq<byte>, cluster: nat, c: nat)
    requires 2 <= cluster < 2 + 8 * |bitmap| && 2 <= c < 2 + 8 * |bitmap|
    ensures Allocated(SetCluster(bitmap, cluster), c) <==> c == cluster || Allocated(bitmap, c)
  {
    if (c - 2) / 8 == (cluster - 2) / 8 {
      SetBitReads(bitmap[(c - 2) / 8], (cluster - 2) % 8, (c - 2) % 8);
    }
  }

  function SetRun(bitmap: seq<byte>, start: nat, n: nat): (r: Option<seq<byte>>)
    requires start >= 2
    ensures r.Some? ==> |r.value| == |bitmap|
    decreases n
  {
    if n == 0 then Some(bitmap)
    else if start - 2 >= 8 * |bitmap| then None
    else SetRun(SetCluster(bitmap, start), start + 1, n - 1)
  }

  lemma {:induction false} SetRunReads(bitmap: seq<byte>, start: nat, n: nat)
    requires start >= 2 && start + n <= 2 + 8 * |bitmap|
    ensures SetRun(bitmap, start, n).Some?
    ensures forall c | 2 <= c < 2 + 8 * |bitmap| ::
              Allocated(SetRun(bitmap, start, n).value, c) <==> start <= c < start + n || Allocated(bitmap, c)
    decreases n
  {
    if n > 0 {
      var next := SetCluster(bitmap, start);
      SetRunReads(next, start + 1, n - 1);
      forall c | 2 <= c < 2 + 8 * |bitmap|
        ensures Allocated(SetRun(bitmap, start, n).value, c) <==> start <= c < start + n || Allocated(bitmap, c)
      {
        SetClusterReads(bitmap, start, c);
      }
    }
  }

  function BitmapFrom(m: seq<Record>, clusterCount: nat, bitmap: seq<byte>, i: nat): (r: Option<seq<byte>>)
    requires i <= |m|
    ensures r.Some? ==> |r.value| == |bitmap|
    decreases |m| - i
  {
    if i == |m| then Some(bitmap)
    else if m[i].target < 2 || m[i].target + m[i].clusters > clusterCount + 2 then None
    else
      match SetRun(bitmap, m[i].target, m[i].clusters)
      case None => None
      case Some(b) => BitmapFrom(m, clusterCount, b, i + 1)
  }

  function Zeros(n: nat): (r: seq<byte>)
    ensures |r| == n && forall k | 0 <= k < n :: r[k] == 0
  {
    seq(n, _ => 0)
  }

  function ExpectedBitmap(m: seq<Record>, clusterCount: nat, length: nat): (r: Option<seq<byte>>)
    ensures r.Some? ==> |r.value| == length
  {
    BitmapFrom(m, clusterCount, Zeros(length), 0)
  }

  /** Every target lies in the heap. */
  ghost predicate TargetsInHeap(m: seq<Record>, clusterCount: nat) {
    forall i | 0 <= i < |m| :: m[i].target >= 2 && m[i].target + m[i].clusters <= clusterCount + 2
  }

  lemma {:induction false} BitmapFromReads(m: seq<Record>, clusterCount: nat, bitmap: seq<byte>, i: nat)
    requires i <= |m| && TargetsInHeap(m, clusterCount) && clusterCount <= 8 * |bitmap|
    requires forall c | 2 <= c < 2 + 8 * |bitmap| :: Allocated(bitmap, c) <==> InTargets(m, i, c)
    ensures BitmapFrom(m, clusterCount, bitmap, i).Some?
    ensures forall c | 2 <= c < 2 + 8 * |bitmap| ::
              Allocated(BitmapFrom(m, clusterCount, bitmap, i).value, c) <==> InTargets(m, |m|, c)
    decreases |m| - i
  {
    if i < |m| {
      SetRunReads(bitmap, m[i].target, m[i].clusters);
      var next := SetRun(bitmap, m[i].target, m[i].clusters).value;
      forall c | 2 <= c < 2 + 8 * |bitmap|
        ensures Allocated(next, c) <==> InTargets(m, i + 1, c)
      {
        if InTargets(m, i + 1, c) && !InTarget(m[i], c) {
          var k :| 0 <= k < i + 1 && InTarget(m[k], c);
          assert k < i;
        }
      }
      BitmapFromReads(m, clusterCount, next, i + 1);
    }
  }

  /** The expected bitmap is set exactly on the targets. */
  lemma ExpectedBitmapExact(m: seq<Record>, clusterCount: nat, length: nat)
    requires TargetsInHeap(m, clusterCount) && clusterCount <= 8 * length
    ensures ExpectedBitmap(m, clusterCount, length).Some?
    ensures forall c | 2 <= c < 2 + 8 * length ::
              Allocated(ExpectedBitmap(m, clusterCount, length).value, c) <==> InTargets(m, |m|, c)
  {
    forall c | 2 <= c < 2 + 8 * length ensures !Allocated(Zeros(length), c) {
      ZeroBit((c - 2) % 8);
    }
    BitmapFromReads(m, clusterCount, Zeros(length), 0);
  }

  // ---- FAT --------------------------------------------------------------------------------------

  predicate SystemKind(k: Kind) {
    k == BitmapKind || k == UpcaseKind || k == RootKind
  }

  /** Linking clusters start .. start+n-1 into one chain ending in EOC. */
  function LinkRun(fat: seq<byte>, start: nat, n: nat): (r: Option<seq<byte>>)
    requires start + n < EOC
    ensures r.Some? ==> |r.value| == |fat|
    decreases n
  {
    if n == 0 then Some(fat)
    else if 4 * start + 4 > |fat| then None
    else LinkRun(PutU32(fat, 4 * start, if n == 1 then EOC else start + 1), start + 1, n - 1)
  }

  function LinkFrom(m: seq<Record>, fat: seq<byte>, i: nat): (r: Option<seq<byte>>)
    requires i <= |m| && forall k | 0 <= k < |m| :: m[k].target + m[k].clusters < EOC
    ensures r.Some? ==> |r.value| == |fat|
    decreases |m| - i
  {
    if i == |m| then Some(fat)
    else if !SystemKind(m[i].kind) then LinkFrom(m, fat, i + 1)
    else
      match LinkRun(fat, m[i].target, m[i].clusters)
      case None => None
      case Some(f) => LinkFrom(m, f, i + 1)
  }

  /** The final FAT: its first eight bytes are the old ones, and only system objects are chained. */
  function FinalFat(m: seq<Record>, old_: seq<byte>): (r: Option<seq<byte>>)
    requires forall k | 0 <= k < |m| :: m[k].target + m[k].clusters < EOC
    ensures r.Some? ==> |r.value| == |old_|
  {
    LinkFrom(m, (if |old_| >= 8 then old_[..8] else []) + Zeros(|old_| - if |old_| >= 8 then 8 else 0), 0)
  }

  predicate Linked(fat: seq<byte>, start: nat, n: nat) {
    && 4 * (start + n) <= |fat|
    && forall c: nat | start <= c < start + n :: U32(fat, 4 * c) == if c + 1 == start + n then EOC else c + 1
  }

  lemma LinkedHead(next: seq<byte>, r: seq<byte>, start: nat, n: nat)
    requires n > 0 && |r| == |next| && Linked(r, start + 1, n - 1) && 4 * start + 4 <= |next|
    requires U32(next, 4 * start) == if n == 1 then EOC else start + 1
    requires forall k | 4 * start <= k < 4 * start + 4 :: r[k] == next[k]
    ensures Linked(r, start, n)
  {
    assert U32(r, 4 * start) == U32(next, 4 * start);
  }

  lemma {:induction false} LinkRunReads(fat: seq<byte>, start: nat, n: nat)
    requires start + n < EOC && 4 * (start + n) <= |fat|
    ensures var r := LinkRun(fat, start, n); r.Some? && Linked(r.value, start, n)
    ensures forall k | 0 <= k < |fat| && !(4 * start <= k < 4 * (start + n)) ::
              LinkRun(fat, start, n).value[k] == fat[k]
    decreases n
  {
    if n > 0 {
      var next := PutU32(fat, 4 * start, if n == 1 then EOC else start + 1);
      LinkRunReads(next, start + 1, n - 1);
      LinkedHead(next, LinkRun(fat, start, n).value, start, n);
    }
  }

  /** No two records share a target cluster. */
  ghost predicate TargetsDisjoint(m: seq<Record>) {
    forall i, j | 0 <= i < |m| && 0 <= j < |m| && i != j :: Apart(m[i], m[j])
  }

  predicate Apart(a: Record, b: Record) {
    a.target + a.clusters <= b.target || b.target + b.clusters <= a.target
  }

  lemma LinkedKept(fat: seq<byte>, next: seq<byte>, start: nat, n: nat)
    requires Linked(fat, start, n) && |next| == |fat|
    requires forall k | 4 * start <= k < 4 * (start + n) :: next[k] == fat[k]
    ensures Linked(next, start, n)
  {
    forall c: nat | start <= c < start + n ensures U32(next, 4 * c) == U32(fat, 4 * c) {
      assert 4 * c + 3 < 4 * (start + n);
    }
  }

  /** Byte k of a FAT belongs to the entry of a cluster in some system object's target run. */
  predicate SystemRunByte(m: seq<Record>, k: int) {
    exists i | 0 <= i < |m| && SystemKind(m[i].kind) :: 4 * m[i].target <= k < 4 * (m[i].target + m[i].clusters)
  }

  lemma {:induction false} LinkFromReads(m: seq<Record>, fat: seq<byte>, i: nat)
    requires i <= |m| && TargetsDisjoint(m)
    requires forall k | 0 <= k < |m| :: 2 <= m[k].target && m[k].target + m[k].clusters < EOC
    requires forall k | 0 <= k < |m| :: 4 * (m[k].target + m[k].clusters) <= |fat|
    requires forall k | 0 <= k < i && SystemKind(m[k].kind) :: Linked(fat, m[k].target, m[k].clusters)
    ensures LinkFrom(m, fat, i).Some?
    ensures forall k | 0 <= k < |m| && SystemKind(m[k].kind) ::
              Linked(LinkFrom(m, fat, i).value, m[k].target, m[k].clusters)
    ensures |fat| >= 8 ==> LinkFrom(m, fat, i).value[..8] == fat[..8]
    decreases |m| - i
  {
    if i < |m| {
      if SystemKind(m[i].kind) {
        LinkRunReads(fat, m[i].target, m[i].clusters);
        var next := LinkRun(fat, m[i].target, m[i].clusters).value;
        forall k | 0 <= k < i && SystemKind(m[k].kind)
          ensures Linked(next, m[k].target, m[k].clusters)
        {
          assert Apart(m[k], m[i]);
          LinkedKept(fat, next, m[k].target, m[k].clusters);
        }
        LinkFromReads(m, next, i + 1);
        assert |fat| >= 8 ==> next[..8] == fat[..8];
      } else {
        LinkFromReads(m, fat, i + 1);
      }
    }
  }

  /** Nothing else is written. */
  lemma {:induction false} LinkFromKeeps(m: seq<Record>, fat: seq<byte>, i: nat, k: nat)
    requires i <= |m| && forall j | 0 <= j < |m| :: m[j].target + m[j].clusters < EOC
    requires LinkFrom(m, fat, i).Some? && k < |fat| && !SystemRunByte(m, k)
    requires forall j | 0 <= j < |m| :: 4 * (m[j].target + m[j].clusters) <= |fat|
    ensures LinkFrom(m, fat, i).value[k] == fat[k]
    decreases |m| - i
  {
    hide LinkRun;
    if i < |m| {
      if SystemKind(m[i].kind) {
        LinkRunReads(fat, m[i].target, m[i].clusters);
        LinkFromKeeps(m, LinkRun(fat, m[i].target, m[i].clusters).value, i + 1, k);
      } else {
        LinkFromKeeps(m, fat, i + 1, k);
      }
    }
  }

  /** On the final FAT every system object is a properly ended chain over its target run; the first eight bytes are
      kept, and every other entry is zero. */
  lemma FinalFatLinks(m: seq<Record>, old_: seq<byte>, clusterCount: nat)
    requires TargetsInHeap(m, clusterCount) && TargetsDisjoint(m)
    requires clusterCount <= MAX_CLUSTERS && |old_| >= 4 * (clusterCount + 2)
    ensures FinalFat(m, old_).Some?
    ensures |old_| >= 8 && FinalFat(m, old_).value[..8] == old_[..8]
    ensures forall k | 0 <= k < |m| && SystemKind(m[k].kind) ::
              Linked(FinalFat(m, old_).value, m[k].target, m[k].clusters)
    ensures forall k | 8 <= k < |old_| && !SystemRunByte(m, k) :: FinalFat(m, old_).value[k] == 0
  {
    var start := old_[..8] + Zeros(|old_| - 8);
    LinkFromReads(m, start, 0);
    assert start[..8] == old_[..8];
    forall k | 8 <= k < |old_| && !SystemRunByte(m, k) ensures FinalFat(m, old_).value[k] == 0 {
      LinkFromKeeps(m, start, 0, k);
    }
  }

  // ---- payloads ---------------------------------------------------------------------------------

  /** What placing record i writes to its target, from its staged bytes. */
  function Payload(m: seq<Record>, clusterCount: nat, i: nat, staged: seq<byte>): (r: Option<seq<byte>>)
    requires i < |m| && forall k | 0 <= k < |m| :: m[k].target < U32_LIMIT
    ensures r.Some? ==> |r.value| == |staged|
  {
    if m[i].kind == BitmapKind then
      match ExpectedBitmap(m, clusterCount, m[i].dataLength)
      case None => None
      case Some(b) => if |b| > |staged| then None else Some(b + Zeros(|staged| - |b|))
    else if m[i].Directory() then PatchDirectory(m, i, staged)
    else Some(staged)
  }

  /** The n clusters from t hold exactly payload. */
  ghost predicate Holds(heap: seq<seq<byte>>, clusterSize: nat, t: nat, n: nat, payload: seq<byte>)
    decreases n
  {
    if n == 0 then payload == []
    else t < |heap| && clusterSize <= |payload| && heap[t] == payload[..clusterSize]
         && Holds(heap, clusterSize, t + 1, n - 1, payload[clusterSize..])
  }

  lemma {:induction false} HoldsReads(v: Volume, t: nat, n: nat, payload: seq<byte>)
    requires v.Valid() && t + n <= |v.heap| && Holds(v.heap, v.clusterSize, t, n, payload)
    ensures ReadAll(v, Run(t, n)) == payload
    decreases n
  {
    if n > 0 {
      HoldsReads(v, t + 1, n - 1, payload[v.clusterSize..]);
      assert Run(t, n)[1..] == Run(t + 1, n - 1);
    }
  }
}
