/** Scanning a volume: system entries, the directory tree, and exclusive ownership of clusters. */
module ExfatScan {
  import opened Bytes
  import opened Checksum
  import opened ExfatVolume
  import opened ExfatDirectory
  import opened Wrappers

  const U64_LIMIT := 0x1_0000_0000_0000_0000
  const NONE := -1
  const BITMAP_ENTRY := 0x81
  const UPCASE_ENTRY := 0x82
  const ROOT_INDEX: nat := 2
  const SLASH: byte := 47

  datatype Kind = BitmapKind | UpcaseKind | RootKind | DirectoryKind | FileKind

  datatype Obj = Obj(
    kind: Kind,
    path: seq<byte>,
    clusters: seq<nat>,
    dataLength: nat,
    validLength: nat,
    noFat: bool,
    parent: int,
    entryOffset: int,
    entryCount: nat,
    sysOffset: int)
  {
    predicate Directory() {
      kind == DirectoryKind || kind == RootKind
    }

    predicate Regular() {
      kind == FileKind
    }

    /** Files and directories are reached through an entry set of their parent. */
    predicate Named() {
      kind == DirectoryKind || kind == FileKind
    }
  }

  /** The growing catalogue and the first clusters of the directories already entered. */
  datatype Walk = Walk(objects: seq<Obj>, visited: set<nat>)

  /** The bytes of a list of clusters. */
  function ReadAll(v: Volume, clusters: seq<nat>): seq<byte>
    requires forall i | 0 <= i < |clusters| :: clusters[i] < |v.heap|
  {
    if clusters == [] then [] else v.heap[clusters[0]] + ReadAll(v, clusters[1..])
  }

  /** Clusters needed for a byte length, in 64-bit arithmetic. */
  function ClustersFor(length: nat, clusterSize: nat): nat
    requires clusterSize > 0
  {
    if length == 0 then 0 else (length + clusterSize - 1) % U64_LIMIT / clusterSize
  }

  function Join(parent: seq<byte>, name: seq<byte>): seq<byte> {
    if parent == [SLASH] then parent + name else parent + [SLASH] + name
  }

  /** What the entry at one offset of a directory means to the parser. */
  datatype Step =
    | End
    | Fail(reason: string)
    | Skip(next: nat)
    | Found(item: Obj, next: nat)

  function ObjectOf(es: EntrySet, clusters: seq<nat>, parent: nat, path: seq<byte>, off: nat): Obj {
    Obj(if es.directory then DirectoryKind else FileKind, Join(path, es.name), clusters,
        es.length, es.valid, es.noFat, parent, off, es.count, NONE)
  }

  predicate InHeap(v: Volume, o: Obj) {
    forall i | 0 <= i < |o.clusters| :: v.InHeap(o.clusters[i])
  }

  /** A well-read entry set: an object if it has clusters. */
  function SetStep(v: Volume, es: EntrySet, parent: nat, path: seq<byte>, off: nat, next: nat): (r: Step)
    requires v.Valid()
    ensures r.Skip? || r.Found? ==> r.next == next
    ensures r.Found? ==> r.item.clusters != [] && InHeap(v, r.item)
  {
    var count := ClustersFor(es.length, v.clusterSize);
    if count == 0 then
      if es.first != 0 || es.length != 0 || es.noFat then Fail("invalid zero-length exFAT stream fields")
      else Skip(next)
    else
      match Chain(v, es.first, count, true, es.noFat)
      case Err(e) => Fail(e)
      case Ok(clusters) =>
        ChainShape(v, es.first, count, true, es.noFat);
        Found(ObjectOf(es, clusters, parent, path, off), next)
  }

  function NextEntry(v: Volume, parent: nat, path: seq<byte>, data: seq<byte>, off: nat): (r: Step)
    requires v.Valid()
    ensures r.Skip? || r.Found? ==> off < r.next <= |data| && (r.next - off) % ENTRY == 0
    ensures r.Found? ==> r.item.clusters != [] && InHeap(v, r.item)
  {
    if off + ENTRY > |data| || data[off] == 0 then End
    else if data[off] != FILE_ENTRY then Skip(off + ENTRY)
    else
      var n: nat := data[off + 1] as int + 1;
      if n < 2 || off + ENTRY * n > |data| then Fail("truncated exFAT file directory-entry set")
      else
        match ReadSet(data[off..off + ENTRY * n], n)
        case Err(e) => Fail(e)
        case Ok(es) => SetStep(v, es, parent, path, off, off + ENTRY * n)
  }

  /** Parsing one directory, and recursively those below it, from an offset of its bytes. */
  function ParseDir(v: Volume, w: Walk, parent: nat, path: seq<byte>, data: seq<byte>, off: nat): (r: Result<Walk>)
    requires v.Valid()
    ensures r.Ok? ==> w.visited <= r.value.visited
    decreases v.HeapSet() - w.visited, |data| - off
  {
    match NextEntry(v, parent, path, data, off)
    case End => Ok(w)
    case Fail(e) => Err(e)
    case Skip(next) => ParseDir(v, w, parent, path, data, next)
    case Found(o, next) =>
      var w1 := w.(objects := w.objects + [o]);
      if o.kind == FileKind then ParseDir(v, w1, parent, path, data, next)
      else if o.clusters[0] in w.visited then Err("exFAT directory cycle or duplicate first cluster")
      else
        assert o.clusters[0] in v.HeapSet() - w.visited;
        var w2 := w1.(visited := w1.visited + {o.clusters[0]});
        match ParseDir(v, w2, |w.objects|, o.path, ReadAll(v, o.clusters), 0)
        case Err(e) => Err(e)
        case Ok(w3) => ParseDir(v, w3, parent, path, data, next)
  }

  // ---- system entries ---------------------------------------------------------------------------

  datatype System = System(
    bitmapOffset: int, bitmapLength: nat, bitmapClusters: seq<nat>,
    upcaseOffset: int, upcaseLength: nat, upcaseClusters: seq<nat>)

  const NoSystem := System(NONE, 0, [], NONE, 0, [])

  function StreamClusters(v: Volume, data: seq<byte>, off: nat): Result<seq<nat>>
    requires v.Valid() && off + ENTRY <= |data|
  {
    Chain(v, U32(data, off + 20), ClustersFor(U64(data, off + 24), v.clusterSize), true, false)
  }

  /** One entry of the search: an active bitmap or up-case entry is recorded, any other is passed over. */
  function TakeEntry(v: Volume, root: seq<byte>, off: nat, s: System): Result<System>
    requires v.Valid() && off + ENTRY <= |root|
  {
    if root[off] == BITMAP_ENTRY && !Bit(root[off + 1], 0) then
      if s.bitmapOffset != NONE then Err("duplicate active exFAT allocation bitmap entry")
      else
        match StreamClusters(v, root, off)
        case Err(e) => Err(e)
        case Ok(c) => Ok(s.(bitmapOffset := off, bitmapLength := U64(root, off + 24), bitmapClusters := c))
    else if root[off] == UPCASE_ENTRY then
      if s.upcaseOffset != NONE then Err("duplicate exFAT up-case table entry")
      else
        match StreamClusters(v, root, off)
        case Err(e) => Err(e)
        case Ok(c) => Ok(s.(upcaseOffset := off, upcaseLength := U64(root, off + 24), upcaseClusters := c))
    else Ok(s)
  }

  function SystemEntries(v: Volume, root: seq<byte>, off: nat, s: System): Result<System>
    requires v.Valid()
    decreases |root| - off
  {
    if off + ENTRY > |root| || root[off] == 0 then
      if s.bitmapOffset == NONE || |s.bitmapClusters| == 0 then
        Err("active exFAT allocation bitmap entry was not found")
      else if s.upcaseOffset == NONE || |s.upcaseClusters| == 0 then
        Err("exFAT up-case table entry was not found")
      else Ok(s)
    else
      match TakeEntry(v, root, off, s)
      case Err(e) => Err(e)
      case Ok(next) => SystemEntries(v, root, off + ENTRY, next)
  }

  // ---- ownership --------------------------------------------------------------------------------

  predicate Allocated(bitmap: seq<byte>, cluster: nat) {
    if cluster < 2 then true
    else if cluster - 2 >= 8 * |bitmap| then true
    else Bit(bitmap[(cluster - 2) / 8], (cluster - 2) % 8)
  }

  predicate Owns(objects: seq<Obj>, i: nat, cluster: nat)
    requires i < |objects|
  {
    cluster in objects[i].clusters
  }

  /** Every cluster has at most one owner, at one position of its list. */
  ghost predicate Disjoint(objects: seq<Obj>) {
    && (forall i | 0 <= i < |objects| :: NoRepeats(objects[i].clusters))
    && (forall i, j, c | 0 <= i < j < |objects| && Owns(objects, i, c) :: !Owns(objects, j, c))
  }

  /** The allocation bitmap is set exactly on the disjoint union of the objects' clusters. */
  ghost predicate ExactOwnership(clusterCount: nat, objects: seq<Obj>, bitmap: seq<byte>) {
    && Disjoint(objects)
    && (forall i, c | 0 <= i < |objects| && Owns(objects, i, c) :: Allocated(bitmap, c))
    && (forall c: nat | 2 <= c < clusterCount + 2 && Allocated(bitmap, c) :: Owned(objects, c))
  }

  predicate Owned(objects: seq<Obj>, cluster: nat) {
    exists i | 0 <= i < |objects| :: Owns(objects, i, cluster)
  }

  /** The ten-percent growth report: every file is one run with its reserve clear behind it. */
  function Reserve(n: nat, percent: nat): nat {
    (n * percent + 99) / 100
  }

  predicate ReserveClear(clusterCount: nat, bitmap: seq<byte>, start: nat, n: nat) {
    forall c: nat | start <= c < start + n :: c < clusterCount + 2 && !Allocated(bitmap, c)
  }

  predicate GrowthSatisfied(clusterCount: nat, objects: seq<Obj>, bitmap: seq<byte>) {
    && (exists i | 0 <= i < |objects| :: objects[i].kind == FileKind)
    && (forall i | 0 <= i < |objects| && objects[i].Directory() :: Fragments(objects[i].clusters) <= 1)
    && (forall i | 0 <= i < |objects| && objects[i].Regular() ::
          && Fragments(objects[i].clusters) == 1
          && var last := objects[i].clusters[|objects[i].clusters| - 1];
             ReserveClear(clusterCount, bitmap, last + 1, Reserve(|objects[i].clusters|, 10)))
  }

  // ---- the whole scan ---------------------------------------------------------------------------

  datatype Catalogue = Catalogue(objects: seq<Obj>, bitmap: seq<byte>, system: System)

  function SystemObject(kind: Kind, clusters: seq<nat>, length: nat, off: int): Obj {
    Obj(kind, if kind == RootKind then [SLASH] else [], clusters, length, length, false, NONE, NONE, 0, off)
  }

  function FirstObjects(s: System, rootClusters: seq<nat>, rootLength: nat): seq<Obj> {
    [SystemObject(BitmapKind, s.bitmapClusters, s.bitmapLength, s.bitmapOffset),
     SystemObject(UpcaseKind, s.upcaseClusters, s.upcaseLength, s.upcaseOffset),
     SystemObject(RootKind, rootClusters, rootLength, NONE)]
  }

  /** Everything a scan reads before it checks ownership. */
  function ReadCatalogue(v: Volume): Result<Catalogue>
    requires v.Valid()
  {
    match Chain(v, v.root, 0, false, false)
    case Err(e) => Err(e)
    case Ok(rootClusters) =>
      ChainShape(v, v.root, 0, false, false);
      var root := ReadAll(v, rootClusters);
      if |root| == 0 then Err("invalid exFAT root directory allocation")
      else
        match SystemEntries(v, root, 0, NoSystem)
        case Err(e) => Err(e)
        case Ok(s) =>
          if s.bitmapLength == 0 || s.bitmapLength * 8 < v.clusterCount then
            Err("exFAT allocation bitmap is shorter than the heap")
          else if !StreamsInHeap(v, s) || s.bitmapLength > |ReadAll(v, s.bitmapClusters)|
                  || s.upcaseLength > |ReadAll(v, s.upcaseClusters)| then Err("short exFAT stream")
          else
            var upcase := ReadAll(v, s.upcaseClusters)[..s.upcaseLength];
            if s.upcaseOffset < 0 || s.upcaseOffset + ENTRY > |root|
               || TableSum(upcase, |upcase|) != U32(root, s.upcaseOffset + 4) then
              Err("exFAT up-case table checksum is invalid")
            else
              match ParseDir(v, Walk(FirstObjects(s, rootClusters, |root|), {v.root}), ROOT_INDEX, [SLASH], root, 0)
              case Err(e) => Err(e)
              case Ok(w) => Ok(Catalogue(w.objects, ReadAll(v, s.bitmapClusters)[..s.bitmapLength], s))
  }

  predicate StreamsInHeap(v: Volume, s: System) {
    && (forall i | 0 <= i < |s.bitmapClusters| :: s.bitmapClusters[i] < |v.heap|)
    && (forall i | 0 <= i < |s.upcaseClusters| :: s.upcaseClusters[i] < |v.heap|)
  }

  /** A scan succeeds with a catalogue exactly when reading succeeds and ownership is exact. */
  ghost predicate Scans(v: Volume, cat: Catalogue) {
    && v.Valid()
    && ReadCatalogue(v) == Ok(cat)
    && ExactOwnership(v.clusterCount, cat.objects, cat.bitmap)
  }
}
