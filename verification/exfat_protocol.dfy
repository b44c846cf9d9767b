/** The relayout protocol as traces: every write, sync and journal step of a run, a rollback and a recovery. */
module ExfatProtocol {
  import opened Bytes
  import opened ExfatVolume
  import opened ExfatScan
  import opened ExfatManifest
  import opened ExfatCanonical
  import opened ExfatMeaning
  import opened ExfatBoot
  import opened ExfatOpen
  import opened ExfatDevice
  import opened Wrappers

  datatype Geometry = Geometry(sectorSize: nat, clusterSize: nat, clusterCount: nat, fatLength: nat)

  function Places(g: Geometry): set<Place> {
    {Head(Main), Head(Backup), Mid(Main), Mid(Backup), Sum(Main), Sum(Backup), Fat}
    + set c: nat | 2 <= c < g.clusterCount + 2 :: Cluster(c)
  }

  function SizeOf(g: Geometry, p: Place): nat {
    match p
    case Head(_) => g.sectorSize
    case Mid(_) => 10 * g.sectorSize
    case Sum(_) => g.sectorSize
    case Fat => g.fatLength
    case Cluster(_) => g.clusterSize
  }

  ghost predicate Sized(g: Geometry, img: Image) {
    && g.sectorSize >= MIN_SECTOR && g.sectorSize % 4 == 0
    && img.Keys == Places(g) && forall p | p in img :: |img[p]| == SizeOf(g, p)
  }

  /** The volume that opening an image gives. */
  function VolumeOf(g: Geometry, img: Image): (v: Volume)
    requires Sized(g, img)
    ensures v.clusterSize == g.clusterSize && v.clusterCount == g.clusterCount && v.fat == img[Fat]
    ensures |v.heap| == g.clusterCount + 2
    ensures forall c | 2 <= c < g.clusterCount + 2 :: v.heap[c] == img[Cluster(c)]
    ensures v.root == RootOf(img[Head(Main)])
  {
    Volume(g.clusterSize, g.clusterCount, img[Fat],
           seq(g.clusterCount + 2, c requires 0 <= c < g.clusterCount + 2 => if c < 2 then [] else img[Cluster(c)]),
           RootOf(img[Head(Main)]))
  }

  // ---- byte addresses ---------------------------------------------------------------------------

  /** Where the regions of a volume start, in bytes. */
  datatype Layout = Layout(fatOffset: nat, heapOffset: nat)

  function Address(g: Geometry, l: Layout, p: Place): int {
    match p
    case Head(Main) => 0
    case Mid(Main) => g.sectorSize
    case Sum(Main) => 11 * g.sectorSize
    case Head(Backup) => 12 * g.sectorSize
    case Mid(Backup) => 13 * g.sectorSize
    case Sum(Backup) => 23 * g.sectorSize
    case Fat => l.fatOffset
    case Cluster(c) => l.heapOffset + (c - 2) * g.clusterSize
  }

  /** What the code relies on without checking: the FAT lies behind the 24 boot sectors and before the heap. */
  predicate RegionsApart(g: Geometry, l: Layout) {
    24 * g.sectorSize <= l.fatOffset && l.fatOffset + g.fatLength <= l.heapOffset
  }

  /** Then different places occupy different bytes of the device. */
  lemma PlacesApart(g: Geometry, l: Layout, p: Place, q: Place)
    requires RegionsApart(g, l) && p in Places(g) && q in Places(g) && p != q
    ensures Address(g, l, p) + SizeOf(g, p) <= Address(g, l, q) || Address(g, l, q) + SizeOf(g, q) <= Address(g, l, p)
  {
    if p.Cluster? && q.Cluster? {
      ClustersApart(p.number, q.number, g.clusterSize);
      ClustersApart(q.number, p.number, g.clusterSize);
    } else if p.Cluster? {
      ProductNonNegative(p.number - 2, g.clusterSize);
    } else if q.Cluster? {
      ProductNonNegative(q.number - 2, g.clusterSize);
    }
  }

  lemma ProductNonNegative(a: nat, b: nat)
    ensures 0 <= a * b
  {
  }

  lemma ClustersApart(a: nat, b: nat, size: nat)
    ensures a < b ==> (a - 2) * size + size <= (b - 2) * size
  {
    if a < b { StepsApart(a - 2, b - a - 1, size); }
  }

  lemma StepsApart(x: int, d: nat, size: nat)
    ensures x * size + size <= (x + 1 + d) * size
  {
    assert (x + 1 + d) * size == x * size + size + d * size;
    ProductNonNegative(d, size);
  }

  // ---- one relayout job -------------------------------------------------------------------------

  /** Everything fixed once the manifest is populated: the original image, the clusters of every object, its target
      and its canonical payload, the canonical FAT, the workspace,
          and the manifest that is published. device is the size
      of the target in bytes. */
  datatype Job = Job(g: Geometry, device: nat, orig: Image, lists: seq<seq<nat>>, targets: seq<nat>,
                     payloads: seq<seq<byte>>, fat: seq<byte>, workspace: nat, m: seq<Record>)

  /** Clusters in the first n lists. */
  function Total(lists: seq<seq<nat>>, n: nat): nat
    requires n <= |lists|
  {
    if n == 0 then 0 else Total(lists, n - 1) + |lists[n - 1]|
  }

  /** The state in which a relayout is entered. */
  ghost predicate Ready(e: Job) {
    && Sized(e.g, e.orig)
    && |e.m| == |e.lists| == |e.targets| == |e.payloads| > 2
    && e.g.clusterCount <= MAX_CLUSTERS
    && ListsReady(e) && TargetsReady(e) && StagedFits(e) && PayloadsReady(e) && BootReady(e)
  }

  /** Objects own distinct clusters below the workspace. */
  ghost predicate ListsReady(e: Job) {
    && (forall i, j | CellOf(e, i, j) :: 2 <= e.lists[i][j] < e.workspace)
    && (forall i, j, k, l {:trigger OwnedCell(e, i, j), OwnedCell(e, k, l)} | CellOf(e, i, j) && CellOf(e, k, l)
          && OwnedCell(e, i, j) == OwnedCell(e, k, l) :: i == k && j == l)
  }

  /** Targets are disjoint runs below the workspace. */
  ghost predicate TargetsReady(e: Job) {
    && |e.targets| == |e.lists|
    && (forall i | 0 <= i < |e.targets| ::
         2 <= e.targets[i] && e.targets[i] + |e.lists[i]| <= e.workspace && |e.lists[i]| > 0)
    && (forall i, k {:trigger RunsApart(e.targets[i], |e.lists[i]|, e.targets[k], |e.lists[k]|)}
          | 0 <= i < |e.targets| && 0 <= k < |e.targets|
              && i != k :: RunsApart(e.targets[i], |e.lists[i]|, e.targets[k], |e.lists[k]|))
  }

  /** The workspace is the end of the heap and takes every object. */
  predicate StagedFits(e: Job) {
    e.workspace >= 2 && e.workspace + Total(e.lists, |e.lists|) == e.g.clusterCount + 2
  }

  /** Canonical payloads fill their runs; the canonical FAT keeps the first two entries. */
  ghost predicate PayloadsReady(e: Job)
    requires Sized(e.g, e.orig)
  {
    && |e.payloads| == |e.lists|
    && (forall i | 0 <= i < |e.payloads| :: Splits(e.payloads[i], e.g.clusterSize, |e.lists[i]|))
    && |e.fat| == e.g.fatLength >= 8 && e.fat[..8] == e.orig[Fat][..8]
  }

  /** The volume has been opened: the main boot copy passes the checks, and both copies are valid. */
  ghost predicate BootReady(e: Job)
    requires Sized(e.g, e.orig)
  {
    Opened(e.g, e.device, e.orig)
  }

  predicate Opened(g: Geometry, device: nat, img: Image)
    requires Sized(g, img)
  {
    && OpenSector(img[Head(Main)], device, false).Ok? && Describe(g, ParametersOf(img[Head(Main)]))
    && CopyOk(img, Main) && CopyOk(img, Backup)
  }

  /** The parameters of a volume of this geometry. */
  predicate Describe(g: Geometry, p: Parameters) {
    p.sectorSize == g.sectorSize && p.clusterSize == g.clusterSize && p.clusterCount == g.clusterCount
    && p.fatLength == g.fatLength
  }

  /** Cluster j of object i: where it is staged, where it was, and where it goes. */
  predicate CellOf(e: Job, i: int, j: int) {
    0 <= i < |e.lists| && 0 <= j < |e.lists[i]|
  }

  function StagedCell(e: Job, i: nat, j: nat): Place
    requires CellOf(e, i, j)
  {
    Cluster(e.workspace + Total(e.lists, i) + j)
  }

  function OwnedCell(e: Job, i: nat, j: nat): Place
    requires CellOf(e, i, j)
  {
    Cluster(e.lists[i][j])
  }

  function TargetCell(e: Job, i: nat, j: nat): Place
    requires CellOf(e, i, j) && |e.targets| == |e.lists|
  {
    Cluster(e.targets[i] + j)
  }

  lemma {:induction false} TotalGrows(lists: seq<seq<nat>>, i: nat, k: nat)
    requires i < k <= |lists|
    ensures Total(lists, i) + |lists[i]| <= Total(lists, k)
  {
    if i + 1 < k { TotalGrows(lists, i, k - 1); }
  }

  /** Staged cells lie in the workspace. */
  lemma StagedInside(e: Job, i: nat, j: nat)
    requires StagedFits(e) && CellOf(e, i, j)
    ensures StagedCell(e, i, j) in Places(e.g) && StagedCell(e, i, j).number >= e.workspace
  {
    TotalGrows(e.lists, i, |e.lists|);
  }

  /** Different cells are staged in different clusters. */
  lemma StagedInjective(e: Job, i: nat, j: nat, k: nat, l: nat)
    requires CellOf(e, i, j) && CellOf(e, k, l) && StagedCell(e, i, j) == StagedCell(e, k, l)
    ensures i == k && j == l
  {
    if i < k { TotalGrows(e.lists, i, k); } else if k < i { TotalGrows(e.lists, k, i); }
  }

  /** Targets lie in the heap below the workspace, and different cells have different targets. */
  lemma TargetInside(e: Job, i: nat, j: nat)
    requires TargetsReady(e) && StagedFits(e) && CellOf(e, i, j)
    ensures TargetCell(e, i, j) in Places(e.g) && TargetCell(e, i, j).number < e.workspace
  {
    assert 2 <= e.targets[i];
  }

  lemma TargetInjective(e: Job, i: nat, j: nat, k: nat, l: nat)
    requires TargetsReady(e) && CellOf(e, i, j) && CellOf(e, k, l) && TargetCell(e, i, j) == TargetCell(e, k, l)
    ensures i == k && j == l
  {
    assert i != k ==> RunsApart(e.targets[i], |e.lists[i]|, e.targets[k], |e.lists[k]|);
  }

  lemma OwnedInside(e: Job, i: nat, j: nat)
    requires Ready(e) && CellOf(e, i, j)
    ensures OwnedCell(e, i, j) in Places(e.g) && OwnedCell(e, i, j).number < e.workspace
  {
    hide BootReady, PayloadsReady, Total, TargetsReady;
    assert 2 <= e.lists[i][j] < e.workspace;
  }

  /** A cluster in use belongs to one cell only. */
  lemma OwnedInjective(e: Job, i: nat, j: nat, k: nat, l: nat)
    requires Ready(e) && CellOf(e, i, j) && CellOf(e, k, l) && OwnedCell(e, i, j) == OwnedCell(e, k, l)
    ensures i == k && j == l
  {
    hide BootReady, PayloadsReady, Total, TargetsReady;
  }

  lemma ReadyTargets(e: Job)
    requires Ready(e)
    ensures |e.m| == |e.lists| == |e.targets| == |e.payloads| > 2
    ensures TargetsReady(e) && StagedFits(e) && e.targets[2] < U32_LIMIT
    ensures Sized(e.g, e.orig) && |e.fat| == e.g.fatLength >= 8 && e.fat[..8] == e.orig[Fat][..8]
  {
    hide BootReady, Total, Sized, ListsReady;
    assert 2 <= e.targets[2];
  }

  // ---- payloads as clusters ---------------------------------------------------------------------

  /** Cluster j of a payload. */
  function Piece(payload: seq<byte>, size: nat, j: nat): seq<byte> {
    if |payload| < size then []
    else if j == 0 then payload[..size]
    else Piece(payload[size..], size, j - 1)
  }

  /** A payload fills exactly n clusters. */
  ghost predicate Splits(payload: seq<byte>, size: nat, n: nat) {
    if n == 0 then payload == [] else size <= |payload| && Splits(payload[size..], size, n - 1)
  }

  lemma {:induction false} SplitsByLength(a: seq<byte>, b: seq<byte>, size: nat, n: nat)
    requires |a| == |b| && Splits(a, size, n)
    ensures Splits(b, size, n)
  {
    if n > 0 { SplitsByLength(a[size..], b[size..], size, n - 1); }
  }

  lemma {:induction false} PieceSize(payload: seq<byte>, size: nat, n: nat, j: nat)
    requires Splits(payload, size, n) && j < n
    ensures |Piece(payload, size, j)| == size
  {
    if j > 0 { PieceSize(payload[size..], size, n - 1, j - 1); }
  }

  /** Reading clusters gives a payload whose pieces are those clusters. */
  lemma {:induction false} ReadSplits(v: Volume, clusters: seq<nat>)
    requires forall i | 0 <= i < |clusters| :: clusters[i] < |v.heap| && |v.heap[clusters[i]]| == v.clusterSize
    ensures Splits(ReadAll(v, clusters), v.clusterSize, |clusters|)
  {
    if clusters != [] {
      ReadSplits(v, clusters[1..]);
      assert ReadAll(v, clusters)[v.clusterSize..] == ReadAll(v, clusters[1..]);
    }
  }

  lemma {:induction false} ReadPiece(v: Volume, clusters: seq<nat>, j: nat)
    requires forall i | 0 <= i < |clusters| :: clusters[i] < |v.heap| && |v.heap[clusters[i]]| == v.clusterSize
    requires j < |clusters|
    ensures Piece(ReadAll(v, clusters), v.clusterSize, j) == v.heap[clusters[j]]
  {
    assert ReadAll(v, clusters)[v.clusterSize..] == ReadAll(v, clusters[1..]);
    if j > 0 { ReadPiece(v, clusters[1..], j - 1); }
  }

  /** A run whose clusters are the pieces of a payload holds the payload. */
  lemma {:induction false} PiecesHold(heap: seq<seq<byte>>, size: nat, t: nat, n: nat, payload: seq<byte>)
    requires Splits(payload, size, n) && t + n <= |heap|
    requires forall j: nat | j < n :: heap[t + j] == Piece(payload, size, j)
    ensures Holds(heap, size, t, n, payload)
    decreases n
  {
    if n > 0 {
      assert heap[t + 0] == Piece(payload, size, 0);
      forall j: nat | j < n - 1 ensures heap[t + 1 + j] == Piece(payload[size..], size, j) {
        assert heap[t + (j + 1)] == Piece(payload, size, j + 1);
      }
      PiecesHold(heap, size, t + 1, n - 1, payload[size..]);
    }
  }

  /** The canonical content of cell (i, j). */
  function CanonicalPiece(e: Job, i: nat, j: nat): (x: seq<byte>)
    requires Ready(e) && CellOf(e, i, j)
    ensures |x| == e.g.clusterSize
  {
    PieceSize(e.payloads[i], e.g.clusterSize, |e.lists[i]|, j);
    Piece(e.payloads[i], e.g.clusterSize, j)
  }

  // ---- traces -----------------------------------------------------------------------------------

  /** Copying clusters from one list of places to another, in order. */
  function CopyOps(img: Image, from: seq<nat>, to: seq<nat>): (ops: seq<Op>)
    requires |from| == |to| && forall j | 0 <= j < |from| :: Cluster(from[j]) in img
    ensures |ops| == |from|
  {
    seq(|from|, j requires 0 <= j < |from| => Write(Cluster(to[j]), img[Cluster(from[j])]))
  }

  /** Writing a payload to the n clusters from t. */
  function RunOps(payload: seq<byte>, size: nat, t: nat, n: nat): (ops: seq<Op>)
    ensures |ops| == n
  {
    seq(n, j requires 0 <= j => Write(Cluster(t + j), Piece(payload, size, j)))
  }

  /** Staging the first n objects into the workspace. */
  function StageOps(e: Job, n: nat): seq<Op>
    requires Ready(e) && n <= |e.lists|
  {
    if n == 0 then []
    else
      ObjectReadable(e, n - 1);
      var clusters := e.lists[n - 1];
      StageOps(e, n - 1) + CopyOps(e.orig, clusters, Run(e.workspace + Total(e.lists, n - 1), |clusters|))
  }

  lemma ObjectReadable(e: Job, i: nat)
    requires Ready(e) && i < |e.lists|
    ensures forall j | 0 <= j < |e.lists[i]| :: Cluster(e.lists[i][j]) in e.orig
  {
    hide Ready;
    ReadyTargets(e);
    forall j | 0 <= j < |e.lists[i]| ensures Cluster(e.lists[i][j]) in e.orig {
      OwnedInside(e, i, j);
      assert OwnedCell(e, i, j) in e.orig;
    }
  }

  /** Placing the first n records of an order. */
  function PlaceOps(e: Job, order: seq<nat>, n: nat): seq<Op>
    requires Ready(e) && n <= |order| && forall k | 0 <= k < |order| :: order[k] < |e.m|
  {
    if n == 0 then []
    else
      var i := order[n - 1];
      PlaceOps(e, order, n - 1) + RunOps(e.payloads[i], e.g.clusterSize, e.targets[i], |e.lists[i]|)
  }

  /** Copying the first n staged objects back to the clusters they came from. */
  function BackOps(e: Job, n: nat): seq<Op>
    requires Ready(e) && n <= |e.lists|
  {
    if n == 0 then []
    else
      ObjectReadable(e, n - 1);
      var clusters := e.lists[n - 1];
      BackOps(e, n - 1) + CopyOps(e.orig, clusters, clusters)
  }

  /** One boot copy: its 12 sectors. */
  datatype Copy = Copy(head: seq<byte>, mid: seq<byte>, sum: seq<byte>)

  function CopyAt(img: Image, side: Side): Copy
    requires Head(side) in img && Mid(side) in img && Sum(side) in img
  {
    Copy(img[Head(side)], img[Mid(side)], img[Sum(side)])
  }

  function WithCopy(img: Image, side: Side, c: Copy): Image {
    img[Head(side) := c.head][Mid(side) := c.mid][Sum(side) := c.sum]
  }

  /** Rewriting one boot copy and waiting for it. */
  function UpdateOps(side: Side, c: Copy): seq<Op> {
    [Write(Head(side), c.head), Write(Mid(side), c.mid), Write(Sum(side), c.sum), Sync]
  }

  /** Publishing the dirty flag: the backup first, then the main copy, with the main copy's flags. */
  function DirtyOps(img: Image): seq<Op>
    requires Head(Main) in img && Head(Backup) in img && |img[Head(Main)]| >= MIN_SECTOR
             && |img[Head(Backup)]| >= MIN_SECTOR
  {
    var flags := WithDirty(U16(img[Head(Main)], FLAGS_FIELD), true);
    WithDirtyReads(U16(img[Head(Main)], FLAGS_FIELD), true, 1);
    [Write(Head(Backup), FlaggedHead(img[Head(Backup)], flags)), Sync,
     Write(Head(Main), FlaggedHead(img[Head(Main)], flags)), Sync]
  }

  /** Percent in use, from the manifest's clusters. */
  function Percent(e: Job): byte {
    var p := if e.g.clusterCount == 0 then 0 else Total(e.lists, |e.lists|) * 100 / e.g.clusterCount;
    if p > 100 then 100 else PercentIsByte(p); p as byte
  }

  lemma PercentIsByte(p: int)
    requires p <= 100
    ensures p < 256
  {
  }

  function NewHead(e: Job, head: seq<byte>): (r: seq<byte>)
    requires Ready(e) && |head| >= MIN_SECTOR
    ensures |r| == |head|
  {
    ReadyTargets(e);
    BootHead(head, e.targets[2], false, Percent(e))
  }

  /** A boot copy as the final commit writes it: new sector 0, new checksum sector. */
  function NewCopy(e: Job, c: Copy): (r: Copy)
    requires Ready(e) && |c.head| >= MIN_SECTOR
    ensures |r.head| == |c.head| && |r.sum| == e.g.sectorSize
  {
    Copy(NewHead(e, c.head), c.mid, SumSector(e.g.sectorSize, HeadSum(NewHead(e, c.head), c.mid)))
  }

  /** Committing the final metadata: FAT, then the backup boot copy, then the main one. */
  function CommitOps(e: Job, boots: Image): seq<Op>
    requires Ready(e) && Sized(e.g, boots)
  {
    [Write(Fat, e.fat), Sync]
    + UpdateOps(Backup, NewCopy(e, CopyAt(boots, Backup))) + UpdateOps(Main, NewCopy(e, CopyAt(boots, Main)))
  }

  /** Writing the original boot copies back, the backup first. */
  function RestoreOps(e: Job): seq<Op>
    requires Ready(e)
  {
    UpdateOps(Backup, CopyAt(e.orig, Backup)) + UpdateOps(Main, CopyAt(e.orig, Main))
  }

  predicate CopyOk(img: Image, side: Side) {
    Head(side) in img && Mid(side) in img && Sum(side) in img
        && ValidCopy(img[Head(side)], img[Mid(side)], img[Sum(side)])
  }

  /** Repairing one torn boot copy from the other, valid one. */
  function RepairOps(g: Geometry, img: Image): seq<Op>
    requires Sized(g, img)
  {
    if CopyOk(img, Main) then
      if CopyOk(img, Backup) then [] else UpdateOps(Backup, CopyAt(img, Main))
    else UpdateOps(Main, CopyAt(img, Backup))
  }

  function Repaired(g: Geometry, img: Image): Image
    requires Sized(g, img)
  {
    if CopyOk(img, Main) then
      if CopyOk(img, Backup) then img else WithCopy(img, Backup, CopyAt(img, Main))
    else WithCopy(img, Main, CopyAt(img, Backup))
  }

  /** Opening an image as the volume the journal describes: the open checks, and the comparison of the parameters. */
  predicate Opens(e: Job, img: Image)
    requires Ready(e)
  {
    ReadyTargets(e);
    && Head(Main) in img && |img[Head(Main)]| >= MIN_SECTOR
    && OpenSector(img[Head(Main)], e.device, true) == Ok(ParametersOf(e.orig[Head(Main)]))
    && CopyOk(img, Main) && CopyOk(img, Backup)
  }
}
