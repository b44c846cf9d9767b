/** A disk that loses writes: what is on it now, what may survive a crash, and runs of operations on it. */
module ExfatDevice {
  import opened Bytes
  import opened ExfatManifest
  import opened Wrappers

  datatype Side = Main | Backup

  /** What is written as a unit: sector 0, sectors 1 to 10 and the checksum sector of each boot copy, the
      FAT, each cluster. */
  datatype Place = Head(side: Side) | Mid(side: Side) | Sum(side: Side) | Fat | Cluster(number: nat)

  type Image = map<Place, seq<byte>>

  datatype Op = Write(place: Place, data: seq<byte>) | Sync | Publish(manifest: seq<Record>) | Remove

  /** now is what a read returns. maybe holds, for every place, the contents a crash can leave there:
      the last synced one and every one written since. The journal file is published and removed atomically. */
  datatype Device = Device(now: Image, maybe: map<Place, set<seq<byte>>>, journal: Option<seq<Record>>)
  {
    ghost predicate Valid() {
      maybe.Keys == now.Keys && forall p | p in now :: now[p] in maybe[p]
    }
  }

  function Settled(img: Image, journal: Option<seq<Record>>): Device {
    Device(img, map p | p in img :: {img[p]}, journal)
  }

  function Apply(d: Device, op: Op): Device {
    match op
    case Write(p, x) =>
      if p in d.now && p in d.maybe then Device(d.now[p := x], d.maybe[p := d.maybe[p] + {x}], d.journal) else d
    case Sync => Settled(d.now, d.journal)
    case Publish(m) => d.(journal := Some(m))
    case Remove => d.(journal := None)
  }

  function Execute(d: Device, ops: seq<Op>): Device {
    if ops == [] then d else Apply(Execute(d, ops[..|ops| - 1]), ops[|ops| - 1])
  }

  // ---- crashes ----------------------------------------------------------------------------------

  predicate Sector(p: Place) {
    p.Head? || p.Sum?
  }

  predicate Boot(p: Place) {
    p.Head? || p.Mid? || p.Sum?
  }

  /** got is made of bytes of the options: a write torn at any bytes. */
  ghost predicate Mixed(options: set<seq<byte>>, got: seq<byte>) {
    && (exists o | o in options :: |o| == |got|)
    && forall j | 0 <= j < |got| :: exists o | o in options :: j < |o| && o[j] == got[j]
  }

  /** A sector is written whole or not at all; anything larger can be torn at any byte. */
  ghost predicate Survives(p: Place, options: set<seq<byte>>, got: seq<byte>) {
    if Sector(p) then got in options else Mixed(options, got)
  }

  ghost predicate AfterCrash(d: Device, img: Image) {
    img.Keys == d.maybe.Keys && forall p | p in img :: Survives(p, d.maybe[p], img[p])
  }

  lemma MixedOne(x: seq<byte>, got: seq<byte>)
    ensures Mixed({x}, got) <==> got == x
  {
    assert x in {x};
    if Mixed({x}, got) {
      forall j | 0 <= j < |got| ensures got[j] == x[j] { }
    }
  }

  /** A synced disk survives a crash as it is. */
  lemma SyncedSurvives(img: Image, journal: Option<seq<Record>>, after: Image)
    ensures AfterCrash(Settled(img, journal), after) <==> after == img
  {
    hide Mixed;
    forall p, got | p in img ensures Survives(p, {img[p]}, got) <==> got == img[p] {
      MixedOne(img[p], got);
    }
    var d := Settled(img, journal);
    assert d.maybe.Keys == img.Keys;
    if AfterCrash(d, after) {
      forall p | p in img ensures after[p] == img[p] {
        assert Survives(p, d.maybe[p], after[p]);
      }
    }
  }

  /** A place with one possible content keeps it. */
  lemma CertainSurvives(d: Device, img: Image, p: Place, x: seq<byte>)
    requires AfterCrash(d, img) && p in img && d.maybe[p] == {x}
    ensures img[p] == x
  {
    MixedOne(x, img[p]);
  }

  // ---- runs -------------------------------------------------------------------------------------

  lemma {:induction false} RunConcat(d: Device, a: seq<Op>, b: seq<Op>)
    ensures Execute(d, a + b) == Execute(Execute(d, a), b)
  {
    if b == [] {
      assert a + b == a;
    } else {
      assert (a + b)[..|a + b| - 1] == a + b[..|b| - 1];
      RunConcat(d, a, b[..|b| - 1]);
    }
  }

  lemma {:induction false} RunValid(d: Device, ops: seq<Op>)
    requires d.Valid()
    ensures Execute(d, ops).Valid() && Execute(d, ops).now.Keys == d.now.Keys
  {
    if ops != [] { RunValid(d, ops[..|ops| - 1]); }
  }

  predicate Writes(ops: seq<Op>, p: Place, x: seq<byte>) {
    Write(p, x) in ops
  }

  /** Whatever may be at a place was possible before or has been written by the run. */
  lemma {:induction false} PossibleAfter(d: Device, ops: seq<Op>, p: Place, x: seq<byte>)
    requires d.Valid() && p in d.now && p in Execute(d, ops).maybe && x in Execute(d, ops).maybe[p]
    ensures x in d.maybe[p] || Writes(ops, p, x)
  {
    RunValid(d, ops);
    if ops != [] {
      var front := ops[..|ops| - 1];
      RunValid(d, front);
      if x in Execute(d, front).maybe[p] {
        PossibleAfter(d, front, p, x);
      }
    }
  }

  ghost predicate Untouched(ops: seq<Op>, p: Place) {
    forall x :: !Writes(ops, p, x)
  }

  /** A place that is not written reads as before, and is as certain as before. */
  lemma {:induction false} UntouchedKept(d: Device, ops: seq<Op>, p: Place)
    requires d.Valid() && p in d.now && Untouched(ops, p)
    ensures p in Execute(d, ops).now && Execute(d, ops).now[p] == d.now[p]
    ensures p in Execute(d, ops).maybe && Execute(d, ops).maybe[p] <= d.maybe[p]
  {
    if ops != [] {
      var front := ops[..|ops| - 1];
      forall x ensures !Writes(front, p, x) {
        assert !Writes(ops, p, x);
      }
      UntouchedKept(d, front, p);
      RunValid(d, front);
      var last := ops[|ops| - 1];
      match last
      case Write(q, y) => assert Writes(ops, q, y);
      case _ =>
    }
  }

  /** All writes of the run to a place write the same content there. */
  ghost predicate OnlyWrites(ops: seq<Op>, p: Place, x: seq<byte>) {
    forall y | Writes(ops, p, y) :: y == x
  }

  lemma {:induction false} WrittenReads(d: Device, ops: seq<Op>, p: Place, x: seq<byte>)
    requires d.Valid() && p in d.now && OnlyWrites(ops, p, x)
    requires d.now[p] == x || Writes(ops, p, x)
    ensures Execute(d, ops).Valid() && p in Execute(d, ops).now && Execute(d, ops).now[p] == x
  {
    RunValid(d, ops);
    if ops != [] {
      var front := ops[..|ops| - 1];
      var last := ops[|ops| - 1];
      RunValid(d, front);
      if last.Write? && last.place == p {
        assert Writes(ops, p, last.data);
      } else {
        forall y | Writes(front, p, y) ensures y == x {
          assert Writes(ops, p, y);
        }
        if Writes(ops, p, x) {
          assert Writes(front, p, x);
        }
        WrittenReads(d, front, p, x);
      }
    }
  }

  predicate Quiet(ops: seq<Op>) {
    forall op | op in ops :: op.Write? || op.Sync?
  }

  /** Writing and syncing leave the journal alone. */
  lemma {:induction false} QuietJournal(d: Device, ops: seq<Op>)
    requires Quiet(ops)
    ensures Execute(d, ops).journal == d.journal
  {
    if ops != [] { QuietJournal(d, ops[..|ops| - 1]); }
  }

  lemma RunOne(d: Device, op: Op)
    ensures Execute(d, [op]) == Apply(d, op)
  {
    assert [op][..0] == [];
  }

  lemma RunSome(d: Device, ops: seq<Op>, op: Op)
    ensures Execute(d, ops + [op]) == Apply(Execute(d, ops), op)
  {
    assert (ops + [op])[..|ops|] == ops;
  }
}
