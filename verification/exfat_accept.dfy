/** Which volumes a scan can read: those whose directories form a tree of well-read entry sets below a root with one
    active bitmap entry and one up-case entry. */
module ExfatAccept {
  import opened Bytes
  import opened Checksum
  import opened ExfatVolume
  import opened ExfatDirectory
  import opened ExfatScan
  import opened ExfatTree
  import opened ExfatRoot
  import opened ExfatRelaid
  import opened ExfatCatalogue
  import opened Wrappers

  // ---- entry sets -------------------------------------------------------------------------------

  /** A well-read entry set without data. */
  predicate NoData(data: seq<byte>, s: nat) {
    WellRead(data, s) && var es := SetAt(data, s); es.length == 0 && es.first == 0 && !es.noFat
  }

  /** A well-read entry set whose stream can be read. */
  predicate HasData(v: Volume, data: seq<byte>, s: nat)
    requires v.Valid()
  {
    && WellRead(data, s)
    && var es := SetAt(data, s);
       es.length != 0 && ClustersFor(es.length, v.clusterSize) != 0
       && Chain(v, es.first, ClustersFor(es.length, v.clusterSize), true, es.noFat).Ok?
  }

  function Clusters(v: Volume, data: seq<byte>, s: nat): (r: seq<nat>)
    requires v.Valid() && HasData(v, data, s)
    ensures r != [] && (forall i | 0 <= i < |r| :: v.InHeap(r[i])) && r[0] == SetAt(data, s).first
  {
    var es := SetAt(data, s);
    ChainShape(v, es.first, ClustersFor(es.length, v.clusterSize), true, es.noFat);
    Chain(v, es.first, ClustersFor(es.length, v.clusterSize), true, es.noFat).value
  }

  function Contents(v: Volume, data: seq<byte>, s: nat): seq<byte>
    requires v.Valid() && HasData(v, data, s)
  {
    ReadAll(v, Clusters(v, data, s))
  }

  predicate Directory(v: Volume, data: seq<byte>, s: nat)
    requires v.Valid() && HasData(v, data, s)
  {
    SetAt(data, s).directory
  }

  // ---- trees ------------------------------------------------------------------------------------

  /** The entry sets with data of a directory, by offset, each with what is below it. */
  datatype Forest = Nil | Cons(at: nat, below: Forest, rest: Forest)

  /** A directory's bytes from off on hold exactly these entry sets, and others without data. */
  ghost predicate Stored(v: Volume, data: seq<byte>, off: nat, f: Forest)
    requires v.Valid()
    decreases f
  {
    match f
    case Nil => forall s: nat | SetStop(data, off, s) :: NoData(data, s)
    case Cons(at, below, rest) =>
      && SetStop(data, off, at) && HasData(v, data, at)
      && (forall s: nat | SetStop(data, off, s) && s < at :: NoData(data, s))
      && (if Directory(v, data, at) then Stored(v, Contents(v, data, at), 0, below) else below.Nil?)
      && Stored(v, data, at + EntrySize(data, at), rest)
  }

  /** The first clusters of all directories of a forest. */
  function Firsts(v: Volume, data: seq<byte>, f: Forest): seq<nat>
    requires v.Valid()
    decreases f
  {
    match f
    case Nil => []
    case Cons(at, below, rest) =>
      hide HasData, Clusters, Contents, Directory;
      if !HasData(v, data, at) then []
      else
        (if Directory(v, data, at) then [Clusters(v, data, at)[0]] + Firsts(v, Contents(v, data, at), below) else [])
        + Firsts(v, data, rest)
  }

  predicate Fresh(visited: set<nat>, firsts: seq<nat>) {
    NoRepeats(firsts) && forall x | x in firsts :: x !in visited
  }

  function Entered(visited: set<nat>, firsts: seq<nat>): set<nat> {
    visited + (set x | x in firsts)
  }

  lemma FreshParts(visited: set<nat>, a: seq<nat>, b: seq<nat>)
    ensures Fresh(visited, a + b) <==> Fresh(visited, a) && Fresh(Entered(visited, a), b)
    ensures Entered(visited, a + b) == Entered(Entered(visited, a), b)
  {
    assert forall i | 0 <= i < |a| :: (a + b)[i] == a[i];
    assert forall i | 0 <= i < |b| :: (a + b)[|a| + i] == b[i];
    assert forall x | x in a :: x in a + b;
    if Fresh(visited, a) && Fresh(Entered(visited, a), b) {
      assert forall i | 0 <= i < |b| :: b[i] in b;
      assert forall i | 0 <= i < |a| :: a[i] in Entered(visited, a);
    }
  }

  lemma FreshOne(visited: set<nat>, x: nat)
    ensures Fresh(visited, [x]) <==> x !in visited
    ensures Entered(visited, [x]) == visited + {x}
  {
    assert x in [x];
  }

  // ---- one step ---------------------------------------------------------------------------------

  lemma StopHere(data: seq<byte>, off: nat)
    ensures SetStop(data, off, off) <==> off + ENTRY <= |data| && data[off] == FILE_ENTRY
  {
  }

  lemma StopsAhead(data: seq<byte>, off: nat, s: nat)
    requires off + ENTRY <= |data| && data[off] != 0
    ensures s != off ==> (SetStop(data, off, s) <==> SetStop(data, off + EntrySize(data, off), s))
    ensures SetStop(data, off, s) ==> s >= off
    ensures SetStop(data, off + EntrySize(data, off), s) ==> s > off
  {
    if OnWalk(data, off, s) { WalkIsForward(data, off, s); }
    if OnWalk(data, off + EntrySize(data, off), s) { WalkIsForward(data, off + EntrySize(data, off), s); }
  }

  /** What an entry means to the parser is decided by the three cases of an entry set. */
  lemma StepMeans(v: Volume, parent: nat, path: seq<byte>, data: seq<byte>, off: nat)
    requires v.Valid()
    ensures var r := NextEntry(v, parent, path, data, off);
            && (r.End? <==> off + ENTRY > |data| || data[off] == 0)
            && (r.Fail? ==> SetStop(data, off, off) && !NoData(data, off) && !HasData(v, data, off))
            && (r.Skip? ==> SetStop(data, off, off) ==> NoData(data, off))
            && (r.Found? ==> SetStop(data, off, off) && HasData(v, data, off)
                             && r.item.clusters == Clusters(v, data, off)
                             && Contents(v, data, off) == ReadAll(v, r.item.clusters)
                             && (r.item.kind == DirectoryKind <==> Directory(v, data, off))
                             && (r.item.kind == FileKind || r.item.kind == DirectoryKind))
  {
    hide ReadSet, Chain, ClustersFor, ReadAll;
    StopHere(data, off);
    EmptyNeedsNone(v);
  }

  lemma EmptyNeedsNone(v: Volume)
    requires v.Valid()
    ensures ClustersFor(0, v.clusterSize) == 0
  {
  }

  lemma NotBoth(v: Volume, data: seq<byte>, s: nat)
    requires v.Valid()
    ensures !(NoData(data, s) && HasData(v, data, s))
  {
  }

  // ---- a parse ----------------------------------------------------------------------------------

  /** A stored tree whose directories are new is parsed. */
  lemma {:induction false} StoredParses(v: Volume, w: Walk, parent: nat, path: seq<byte>, data: seq<byte>, off: nat,
      f: Forest)
    requires v.Valid() && Stored(v, data, off, f) && Fresh(w.visited, Firsts(v, data, f))
    ensures ParseDir(v, w, parent, path, data, off).Ok?
    ensures ParseDir(v, w, parent, path, data, off).value.visited == Entered(w.visited, Firsts(v, data, f))
    decreases f, |data| - off
  {
    hide NextEntry, SetStop, HasData, NoData, Fresh, Entered, Contents, Clusters, Directory, ReadAll, EntrySize;
    StepMeans(v, parent, path, data, off);
    NextSize(v, parent, path, data, off);
    NotBoth(v, data, off);
    match NextEntry(v, parent, path, data, off)
    case End => NoneLeft(v, data, off, f); EnteredNone(w.visited);
    case Fail(_) => FirstStop(v, data, off, f);
    case Skip(next) =>
      SkipStored(v, data, off, f);
      StoredParses(v, w, parent, path, data, next, f);
    case Found(o, next) =>
      FirstStop(v, data, off, f);
      var rest := Firsts(v, data, f.rest);
      if o.kind == FileKind {
        assert Firsts(v, data, f) == [] + rest == rest;
        StoredParses(v, w.(objects := w.objects + [o]), parent, path, data, next, f.rest);
      } else {
        var c, below := o.clusters[0], Firsts(v, Contents(v, data, off), f.below);
        assert Firsts(v, data, f) == [c] + (below + rest);
        FreshParts(w.visited, [c], below + rest);
        FreshOne(w.visited, c);
        FreshParts(w.visited + {c}, below, rest);
        var w2 := Walk(w.objects + [o], w.visited + {c});
        StoredParses(v, w2, |w.objects|, o.path, Contents(v, data, off), 0, f.below);
        var w3 := ParseDir(v, w2, |w.objects|, o.path, Contents(v, data, off), 0).value;
        StoredParses(v, w3, parent, path, data, next, f.rest);
      }
  }

  lemma EnteredNone(visited: set<nat>)
    ensures Entered(visited, []) == visited && Fresh(visited, [])
  {
  }

  lemma NoneLeft(v: Volume, data: seq<byte>, off: nat, f: Forest)
    requires v.Valid() && Stored(v, data, off, f) && (off + ENTRY > |data| || data[off] == 0)
    ensures f.Nil?
  {
    hide HasData, NoData, Directory;
  }

  /** An entry set where the walk stands is the first of the forest, or one without data. */
  lemma FirstStop(v: Volume, data: seq<byte>, off: nat, f: Forest)
    requires v.Valid() && Stored(v, data, off, f) && SetStop(data, off, off)
    ensures NoData(data, off) || (f.Cons? && f.at == off && HasData(v, data, off))
  {
    hide HasData, NoData, Directory, Contents;
    if f.Cons? { WalkIsForward(data, off, f.at); }
  }

  lemma SkipStored(v: Volume, data: seq<byte>, off: nat, f: Forest)
    requires v.Valid() && off + ENTRY <= |data| && data[off] != 0 && (SetStop(data, off, off) ==> NoData(data, off))
    ensures Stored(v, data, off, f) <==> Stored(v, data, off + EntrySize(data, off), f)
  {
    hide HasData, NoData, Directory, Contents, SetStop, EntrySize;
    forall s: nat
      ensures s != off ==> (SetStop(data, off, s) <==> SetStop(data, off + EntrySize(data, off), s))
      ensures SetStop(data, off + EntrySize(data, off), s) ==> s > off
    {
      StopsAhead(data, off, s);
    }
    if f.Cons? {
      NotBoth(v, data, off);
    }
  }

  /** A parse that succeeds has read a stored tree of new directories. */
  lemma {:induction false} ParsedIsStored(v: Volume, w: Walk, parent: nat, path: seq<byte>, data: seq<byte>, off: nat)
    returns (f: Forest)
    requires v.Valid() && ParseDir(v, w, parent, path, data, off).Ok?
    ensures Stored(v, data, off, f) && Fresh(w.visited, Firsts(v, data, f))
    ensures ParseDir(v, w, parent, path, data, off).value.visited == Entered(w.visited, Firsts(v, data, f))
    decreases v.HeapSet() - w.visited, |data| - off
  {
    hide NextEntry, SetStop, HasData, NoData, Fresh, Entered, Contents, Clusters, Directory, ReadAll, EntrySize;
    StepMeans(v, parent, path, data, off);
    NextSize(v, parent, path, data, off);
    match NextEntry(v, parent, path, data, off)
    case End =>
      f := Nil;
      NothingAhead(v, data, off);
      EnteredNone(w.visited);
    case Skip(next) =>
      f := ParsedIsStored(v, w, parent, path, data, next);
      SkipStored(v, data, off, f);
    case Found(o, next) =>
      if o.kind == FileKind {
        var rest := ParsedIsStored(v, w.(objects := w.objects + [o]), parent, path, data, next);
        f := Cons(off, Nil, rest);
        assert Firsts(v, data, f) == [] + Firsts(v, data, rest) == Firsts(v, data, rest);
      } else {
        var c := o.clusters[0];
        assert c in v.HeapSet() - w.visited;
        var w2 := Walk(w.objects + [o], w.visited + {c});
        var below := ParsedIsStored(v, w2, |w.objects|, o.path, Contents(v, data, off), 0);
        var w3 := ParseDir(v, w2, |w.objects|, o.path, Contents(v, data, off), 0).value;
        var rest := ParsedIsStored(v, w3, parent, path, data, next);
        f := Cons(off, below, rest);
        var lower, later := Firsts(v, Contents(v, data, off), below), Firsts(v, data, rest);
        assert Firsts(v, data, f) == [c] + (lower + later);
        FreshParts(w.visited, [c], lower + later);
        FreshOne(w.visited, c);
        FreshParts(w.visited + {c}, lower, later);
      }
      NothingBefore(data, off);
  }

  lemma NothingAhead(v: Volume, data: seq<byte>, off: nat)
    requires v.Valid() && (off + ENTRY > |data| || data[off] == 0)
    ensures Stored(v, data, off, Nil)
  {
  }

  lemma NothingBefore(data: seq<byte>, off: nat)
    ensures forall s: nat | SetStop(data, off, s) :: s >= off
  {
    forall s: nat | SetStop(data, off, s) ensures s >= off {
      WalkIsForward(data, off, s);
    }
  }

  /** A directory is parsed with all below it if and only if its bytes store a tree of well-read entry sets, in which no
      directory's first cluster occurs twice or has been visited. */
  lemma ParsesExactly(v: Volume, w: Walk, parent: nat, path: seq<byte>, data: seq<byte>, off: nat)
    requires v.Valid()
    ensures ParseDir(v, w, parent, path, data, off).Ok? <==>
              exists f :: Stored(v, data, off, f) && Fresh(w.visited, Firsts(v, data, f))
  {
    hide ParseDir, Stored, Firsts, Fresh, Entered;
    if ParseDir(v, w, parent, path, data, off).Ok? {
      var f := ParsedIsStored(v, w, parent, path, data, off);
    } else if f :| Stored(v, data, off, f) && Fresh(w.visited, Firsts(v, data, f)) {
      StoredParses(v, w, parent, path, data, off, f);
    }
  }

  // ---- system entries ---------------------------------------------------------------------------

  /** The search of the root directory sees one active entry of a kind, at offset at, and can read its clusters. */
  ghost predicate OneEntry(v: Volume, root: seq<byte>, at: nat, kind: Kind)
    requires v.Valid()
  {
    && Seen(root, at) && ActiveEntry(root, at, kind)
    && (forall other: nat | Seen(root, other) && ActiveEntry(root, other, kind) :: other == at)
    && StreamClusters(v, root, at).Ok? && StreamClusters(v, root, at).value != []
  }

  /** What has been recorded before offset off. */
  function Recorded(v: Volume, root: seq<byte>, bitmap: nat, upcase: nat, off: nat): System
    requires v.Valid() && bitmap + ENTRY <= |root| && upcase + ENTRY <= |root|
    requires StreamClusters(v, root, bitmap).Ok? && StreamClusters(v, root, upcase).Ok?
  {
    var s := if bitmap >= off then NoSystem
        else System(bitmap, U64(root, bitmap + 24), StreamClusters(v, root, bitmap).value, NONE, 0, []);
    if upcase >= off then s
    else
      s.(upcaseOffset := upcase, upcaseLength := U64(root, upcase + 24),
         upcaseClusters := StreamClusters(v, root, upcase).value)
  }

  lemma EntryRecorded(v: Volume, root: seq<byte>, bitmap: nat, upcase: nat, off: nat)
    requires v.Valid() && OneEntry(v, root, bitmap, BitmapKind) && OneEntry(v, root, upcase, UpcaseKind)
    requires Seen(root, off)
    ensures TakeEntry(v, root, off, Recorded(v, root, bitmap, upcase, off))
            == Ok(Recorded(v, root, bitmap, upcase, off + ENTRY))
  {
    hide StreamClusters, U64, Bit, Seen;
    Between(root, off, bitmap);
    Between(root, off, upcase);
    assert ActiveEntry(root, off, BitmapKind) <==> off == bitmap;
    assert ActiveEntry(root, off, UpcaseKind) <==> off == upcase;
  }

  lemma Between(root: seq<byte>, off: nat, at: nat)
    requires Seen(root, off) && Seen(root, at)
    ensures at < off + ENTRY ==> at <= off
    ensures off % ENTRY == 0 && off + ENTRY <= |root| && at + ENTRY <= |root|
  {
  }

  lemma {:induction false} EntriesRecorded(v: Volume, root: seq<byte>, bitmap: nat, upcase: nat, off: nat)
    requires v.Valid() && OneEntry(v, root, bitmap, BitmapKind) && OneEntry(v, root, upcase, UpcaseKind)
    requires SeenTo(root, off)
    ensures SystemEntries(v, root, off, Recorded(v, root, bitmap, upcase, off))
            == Ok(Recorded(v, root, bitmap, upcase, |root|))
    decreases |root| - off
  {
    hide StreamClusters, U64, TakeEntry, Recorded, ActiveEntry;
    if off + ENTRY > |root| || root[off] == 0 {
      AllRecorded(v, root, bitmap, upcase, off);
    } else {
      EntryRecorded(v, root, bitmap, upcase, off);
      EntriesRecorded(v, root, bitmap, upcase, off + ENTRY);
    }
  }

  lemma AllRecorded(v: Volume, root: seq<byte>, bitmap: nat, upcase: nat, off: nat)
    requires v.Valid() && OneEntry(v, root, bitmap, BitmapKind) && OneEntry(v, root, upcase, UpcaseKind)
    requires off % ENTRY == 0 && (off + ENTRY > |root| || root[off] == 0)
    ensures var s := Recorded(v, root, bitmap, upcase, off);
            && s == Recorded(v, root, bitmap, upcase, |root|)
            && s.bitmapOffset == bitmap && s.bitmapClusters != [] && s.upcaseOffset == upcase && s.upcaseClusters != []
  {
    hide StreamClusters, U64, ActiveEntry;
    SeenBefore(root, off, bitmap);
    SeenBefore(root, off, upcase);
  }

  lemma SeenBefore(root: seq<byte>, off: nat, at: nat)
    requires off % ENTRY == 0 && (off + ENTRY > |root| || root[off] == 0) && Seen(root, at)
    ensures at < off && at < |root|
  {
  }

  /** The search records entries that it has seen. */
  lemma {:induction false} RecordedSeen(v: Volume, root: seq<byte>, off: nat, s: System)
    requires v.Valid() && SeenTo(root, off) && SystemEntries(v, root, off, s).Ok?
    requires s.bitmapOffset == NONE || (s.bitmapOffset >= 0 && Seen(root, s.bitmapOffset))
    requires s.upcaseOffset == NONE || (s.upcaseOffset >= 0 && Seen(root, s.upcaseOffset))
    ensures var f := SystemEntries(v, root, off, s).value;
            f.bitmapOffset >= 0 && Seen(root, f.bitmapOffset) && f.upcaseOffset >= 0 && Seen(root, f.upcaseOffset)
    decreases |root| - off
  {
    hide StreamClusters, U64, Bit;
    if off + ENTRY <= |root| && root[off] != 0 {
      RecordedSeen(v, root, off + ENTRY, TakeEntry(v, root, off, s).value);
    }
  }

  // ---- a volume ---------------------------------------------------------------------------------

  function RootBytes(v: Volume): seq<byte>
    requires v.Valid() && Chain(v, v.root, 0, false, false).Ok?
  {
    ChainShape(v, v.root, 0, false, false);
    ReadAll(v, Chain(v, v.root, 0, false, false).value)
  }

  function StreamBytes(v: Volume, root: seq<byte>, at: nat): seq<byte>
    requires v.Valid() && at + ENTRY <= |root| && StreamClusters(v, root, at).Ok?
  {
    ChainShape(v, U32(root, at + 20), ClustersFor(U64(root, at + 24), v.clusterSize), true, false);
    ReadAll(v, StreamClusters(v, root, at).value)
  }

  /** The stream of the bitmap has a bit for every cluster; that of the up-case table has the checksum stored for it. */
  ghost predicate StreamsFit(v: Volume, root: seq<byte>, bitmap: nat, upcase: nat)
    requires v.Valid() && OneEntry(v, root, bitmap, BitmapKind) && OneEntry(v, root, upcase, UpcaseKind)
  {
    && 0 < U64(root, bitmap + 24) <= |StreamBytes(v, root, bitmap)| && v.clusterCount <= 8 * U64(root, bitmap + 24)
    && U64(root, upcase + 24) <= |StreamBytes(v, root, upcase)|
    && var table := StreamBytes(v, root, upcase)[..U64(root, upcase + 24)];
       TableSum(table, |table|) == U32(root, upcase + 4)
  }

  ghost predicate Readable(v: Volume, bitmap: nat, upcase: nat, f: Forest)
    requires v.Valid()
  {
    && Chain(v, v.root, 0, false, false).Ok?
    && var root := RootBytes(v);
       && OneEntry(v, root, bitmap, BitmapKind) && OneEntry(v, root, upcase, UpcaseKind)
       && StreamsFit(v, root, bitmap, upcase)
       && Stored(v, root, 0, f) && Fresh({v.root}, Firsts(v, root, f))
  }

  /** A volume is read if and only if its root directory can be read and shows one active bitmap entry and one up-case
      entry, whose streams fit, and all directories together are a tree of well-read entry sets. */
  lemma ReadsExactly(v: Volume)
    requires v.Valid()
    ensures ReadCatalogue(v).Ok? <==> exists bitmap: nat, upcase: nat, f :: Readable(v, bitmap, upcase, f)
  {
    hide Readable, ReadCatalogue;
    if ReadCatalogue(v).Ok? {
      ReadIsReadable(v);
    } else if bitmap: nat, upcase: nat, f :| Readable(v, bitmap, upcase, f) {
      ReadableIsRead(v, bitmap, upcase, f);
    }
  }

  lemma ReadableIsRead(v: Volume, bitmap: nat, upcase: nat, f: Forest)
    requires v.Valid() && Readable(v, bitmap, upcase, f)
    ensures ReadCatalogue(v).Ok?
  {
    hide Chain, StreamClusters, ReadAll, TableSum, U64, U32, ParseDir, Stored, Firsts, Fresh, SystemEntries,
         ActiveEntry;
    var root := RootBytes(v);
    EntriesRecorded(v, root, bitmap, upcase, 0);
    StreamsInside(v, root, bitmap, upcase);
    var clusters := Chain(v, v.root, 0, false, false).value;
    var s := Recorded(v, root, bitmap, upcase, |root|);
    assert SystemEntries(v, root, 0, NoSystem) == Ok(s);
    assert ReadAll(v, s.bitmapClusters) == StreamBytes(v, root, bitmap);
    assert ReadAll(v, s.upcaseClusters) == StreamBytes(v, root, upcase);
    assert s.upcaseOffset == upcase;
    var w := Walk(FirstObjects(Recorded(v, root, bitmap, upcase, |root|), clusters, |root|), {v.root});
    StoredParses(v, w, ROOT_INDEX, [SLASH], root, 0, f);
  }

  lemma StreamsInside(v: Volume, root: seq<byte>, bitmap: nat, upcase: nat)
    requires v.Valid() && OneEntry(v, root, bitmap, BitmapKind) && OneEntry(v, root, upcase, UpcaseKind)
    ensures StreamsInHeap(v, Recorded(v, root, bitmap, upcase, |root|))
    ensures SeenTo(root, 0) && Recorded(v, root, bitmap, upcase, 0) == NoSystem
    ensures upcase + ENTRY <= |root| && bitmap + ENTRY <= |root|
  {
    hide Chain, ActiveEntry;
    ChainShape(v, U32(root, bitmap + 20), ClustersFor(U64(root, bitmap + 24), v.clusterSize), true, false);
    ChainShape(v, U32(root, upcase + 20), ClustersFor(U64(root, upcase + 24), v.clusterSize), true, false);
  }

  lemma ReadIsReadable(v: Volume)
    requires v.Valid() && ReadCatalogue(v).Ok?
    ensures exists bitmap: nat, upcase: nat, f :: Readable(v, bitmap, upcase, f)
  {
    hide Chain, StreamClusters, ReadAll, TableSum, U64, U32, ParseDir, Stored, Firsts, Fresh, SystemEntries,
         ActiveEntry, SystemFound;
    ChainShape(v, v.root, 0, false, false);
    var root := RootBytes(v);
    var s := SystemEntries(v, root, 0, NoSystem).value;
    EntriesSeen(v, root);
    var w := Walk(FirstObjects(s, Chain(v, v.root, 0, false, false).value, |root|), {v.root});
    ParsesExactly(v, w, ROOT_INDEX, [SLASH], root, 0);
    var f :| Stored(v, root, 0, f) && Fresh({v.root}, Firsts(v, root, f));
    assert Readable(v, s.bitmapOffset, s.upcaseOffset, f);
  }

  lemma EntriesSeen(v: Volume, root: seq<byte>)
    requires v.Valid() && SystemEntries(v, root, 0, NoSystem).Ok?
    ensures var s := SystemEntries(v, root, 0, NoSystem).value;
            && s.bitmapOffset >= 0 && OneEntry(v, root, s.bitmapOffset, BitmapKind)
            && s.upcaseOffset >= 0 && OneEntry(v, root, s.upcaseOffset, UpcaseKind)
            && s.bitmapClusters == StreamClusters(v, root, s.bitmapOffset).value
            && s.bitmapLength == U64(root, s.bitmapOffset + 24)
            && s.upcaseClusters == StreamClusters(v, root, s.upcaseOffset).value
            && s.upcaseLength == U64(root, s.upcaseOffset + 24)
  {
    hide StreamClusters, U64, ActiveEntry, Seen, SystemEntries;
    NothingFound(v, root);
    SystemEntriesFound(v, root, 0, NoSystem);
    RecordedSeen(v, root, 0, NoSystem);
    forall other: nat | Seen(root, other)
      ensures ActiveEntry(root, other, BitmapKind) ==>
                other == SystemEntries(v, root, 0, NoSystem).value.bitmapOffset
      ensures ActiveEntry(root, other, UpcaseKind) ==>
                other == SystemEntries(v, root, 0, NoSystem).value.upcaseOffset
    {
      OnlyActive(v, root, 0, NoSystem, other);
    }
  }
}
