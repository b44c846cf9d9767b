/** Opening a volume: what the main boot sector has to say, and which boot sectors open as the same volume. */
module ExfatOpen {
  import opened Bytes
  import opened ExfatBoot
  import opened Wrappers

  const SECTORS_FIELD := 72
  const FAT_OFFSET_FIELD := 80
  const FAT_LENGTH_FIELD := 84
  const HEAP_FIELD := 88
  const COUNT_FIELD := 92
  const SERIAL_FIELD := 100
  const SECTOR_SHIFT := 108
  const CLUSTER_SHIFT := 109
  const FATS_FIELD := 110
  const LARGEST_CLUSTER := 0x200_0000

  /** What the journal records of a volume and recovery compares: sizes and offsets in bytes, and the serial. */
  datatype Parameters = Parameters(
    sectorSize: nat,
    clusterSize: nat,
    volumeBytes: nat,
    fatOffset: nat,
    fatLength: nat,
    heapOffset: nat,
    clusterCount: nat,
    serial: nat)

  predicate MediaFailure(head: seq<byte>) {
    |head| >= MIN_SECTOR && Bit(U16(head, FLAGS_FIELD), 2)
  }

  function ParametersOf(head: seq<byte>): Parameters
    requires |head| >= MIN_SECTOR
  {
    var bps := Two(head[SECTOR_SHIFT]);
    Parameters(bps, Times(Two(head[CLUSTER_SHIFT]), bps), Times(U64(head, SECTORS_FIELD), bps),
               Times(U32(head, FAT_OFFSET_FIELD), bps), Times(U32(head, FAT_LENGTH_FIELD), bps),
               Times(U32(head, HEAP_FIELD), bps), U32(head, COUNT_FIELD), U32(head, SERIAL_FIELD))
  }

  function Times(a: nat, b: nat): nat {
    a * b
  }

  /** The checks on sector 0, in the program's order; device is the size of the target. */
  function OpenSector(head: seq<byte>, device: nat, allowDirty: bool): Result<Parameters>
    requires |head| >= MIN_SECTOR
  {
    if head[3..11] != SIGNATURE then Err("not an exFAT volume")
    else if head[SECTOR_SHIFT] < 9 || head[SECTOR_SHIFT] > 12 || head[CLUSTER_SHIFT] > 25 then
      Err("unsupported exFAT sector or cluster geometry")
    else if ParametersOf(head).clusterSize > LARGEST_CLUSTER then Err("unsupported exFAT cluster size")
    else if head[FATS_FIELD] != 1 then Err("TexFAT/two-FAT volumes are not yet safe for direct rewriting")
    else if !RootInside(head) then Err("invalid exFAT geometry")
    else if MediaFailure(head) then Err("exFAT reports media failure")
    else if Dirty(head) && !allowDirty then Err("exFAT volume is marked dirty; complete filesystem checking first")
    else if U64(head, SECTORS_FIELD) == 0 || ParametersOf(head).volumeBytes > device then
      Err("exFAT volume boundary exceeds the target device")
    else if !Bounded(ParametersOf(head)) then Err("exFAT FAT or cluster heap exceeds the volume boundary")
    else Ok(ParametersOf(head))
  }

  /** In 32-bit arithmetic. */
  predicate RootInside(head: seq<byte>)
    requires |head| >= MIN_SECTOR
  {
    U32(head, COUNT_FIELD) >= 1 && 2 <= RootOf(head) < (U32(head, COUNT_FIELD) + 2) % U32_LIMIT
  }

  predicate Bounded(p: Parameters) {
    && (p.clusterCount + 2) % U32_LIMIT * 4 <= p.fatLength
    && p.fatOffset + p.fatLength <= p.volumeBytes
    && p.heapOffset + Times(p.clusterCount, p.clusterSize) <= p.volumeBytes
  }

  /** The FAT has an entry for every cluster, FAT and clusters end inside the volume, and the volume inside the
      device. */
  ghost predicate Contained(p: Parameters, device: nat) {
    && 0 < p.volumeBytes <= device
    && 4 * (p.clusterCount + 2) <= p.fatLength && p.fatOffset + p.fatLength <= p.volumeBytes
    && forall c: nat | 2 <= c < p.clusterCount + 2 :: ClusterEnd(p, c) <= p.volumeBytes
  }

  /** Where cluster c of the heap, counted from 2, ends. */
  function ClusterEnd(p: Parameters, c: nat): nat
    requires c >= 2
  {
    p.heapOffset + Times(c - 1, p.clusterSize)
  }

  /** A sector opens if and only if it is that of a clean exFAT volume with one FAT, a supported geometry, a root in
      its heap, and all its parts contained, without wrapping around. */
  lemma OpenedExactly(head: seq<byte>, device: nat, allowDirty: bool)
    requires |head| >= MIN_SECTOR
    ensures OpenSector(head, device, allowDirty).Ok? <==>
              && head[3..11] == SIGNATURE && head[FATS_FIELD] == 1
              && 9 <= head[SECTOR_SHIFT] <= 12 && head[CLUSTER_SHIFT] <= 25
              && ParametersOf(head).clusterSize <= LARGEST_CLUSTER
              && U32(head, COUNT_FIELD) + 2 < U32_LIMIT && 2 <= RootOf(head) < U32(head, COUNT_FIELD) + 2
              && !MediaFailure(head) && (allowDirty || !Dirty(head)) && Contained(ParametersOf(head), device)
  {
    hide MediaFailure, Dirty, RootInside, Bounded, Contained, U64;
    RootsInside(head);
    VolumeSize(head);
    if RootInside(head) { ContainedExactly(ParametersOf(head), device); }
  }

  lemma VolumeSize(head: seq<byte>)
    requires |head| >= MIN_SECTOR
    ensures ParametersOf(head).volumeBytes > 0 <==> U64(head, SECTORS_FIELD) != 0
    ensures ParametersOf(head).clusterCount == U32(head, COUNT_FIELD)
  {
    hide Two, U32, U64;
    TwoPositive(head[SECTOR_SHIFT]);
    var a, b := U64(head, SECTORS_FIELD), Two(head[SECTOR_SHIFT]);
    if a > 0 { assert a * b >= b; }
  }

  lemma ContainedExactly(p: Parameters, device: nat)
    requires 1 <= p.clusterCount < U32_LIMIT - 2
    ensures Contained(p, device) <==> 0 < p.volumeBytes <= device && Bounded(p)
  {
    hide Times;
    assert ClusterEnd(p, p.clusterCount + 1) == p.heapOffset + Times(p.clusterCount, p.clusterSize);
    forall c: nat | 2 <= c < p.clusterCount + 2
      ensures ClusterEnd(p, c) <= p.heapOffset + Times(p.clusterCount, p.clusterSize)
    {
      TimesGrow(c - 1, p.clusterCount, p.clusterSize);
    }
  }

  lemma TimesGrow(a: nat, b: nat, n: nat)
    requires a <= b
    ensures Times(a, n) <= Times(b, n)
  {
    assert b * n == a * n + (b - a) * n;
  }

  /** The fields that decide the parameters. */
  predicate SameVolume(a: seq<byte>, b: seq<byte>)
    requires |a| >= MIN_SECTOR && |b| >= MIN_SECTOR
  {
    && U64(a, SECTORS_FIELD) == U64(b, SECTORS_FIELD) && U32(a, FAT_OFFSET_FIELD) == U32(b, FAT_OFFSET_FIELD)
    && U32(a, FAT_LENGTH_FIELD) == U32(b, FAT_LENGTH_FIELD) && U32(a, HEAP_FIELD) == U32(b, HEAP_FIELD)
    && U32(a, COUNT_FIELD) == U32(b, COUNT_FIELD) && U32(a, SERIAL_FIELD) == U32(b, SERIAL_FIELD)
    && a[SECTOR_SHIFT] == b[SECTOR_SHIFT] && a[CLUSTER_SHIFT] == b[CLUSTER_SHIFT] && a[FATS_FIELD] == b[FATS_FIELD]
  }

  /** A boot sector opens as the volume another one describes exactly when these fields agree, no media failure is
      reported and the root is a cluster of the heap. */
  lemma OpensAlike(a: seq<byte>, b: seq<byte>, device: nat, allowDirty: bool)
    requires |a| >= MIN_SECTOR && |b| >= MIN_SECTOR && b[3..11] == SIGNATURE && OpenSector(a, device, allowDirty).Ok?
    ensures OpenSector(b, device, true) == Ok(ParametersOf(a)) <==>
              SameVolume(a, b) && !MediaFailure(b) && 2 <= RootOf(b) < U32(a, COUNT_FIELD) + 2
  {
    hide ParametersOf, MediaFailure, Dirty, RootInside, Bounded, SameVolume, U64;
    RootsInside(a);
    RootsInside(b);
    if SameVolume(a, b) {
      SameParameters(a, b);
    }
    if OpenSector(b, device, true) == Ok(ParametersOf(a)) {
      FieldsFromParameters(a, b);
      SameParameters(a, b);
    }
  }

  /** An accepted volume has so few clusters that nothing wraps. */
  lemma RootsInside(a: seq<byte>)
    requires |a| >= MIN_SECTOR
    ensures RootInside(a) ==> U32(a, COUNT_FIELD) + 2 < U32_LIMIT
    ensures RootInside(a) <==> 1 <= U32(a, COUNT_FIELD) < U32_LIMIT - 2 && 2 <= RootOf(a) < U32(a, COUNT_FIELD) + 2
  {
  }

  lemma SameParameters(a: seq<byte>, b: seq<byte>)
    requires |a| >= MIN_SECTOR && |b| >= MIN_SECTOR && SameVolume(a, b)
    ensures ParametersOf(a) == ParametersOf(b) && U32(a, COUNT_FIELD) == U32(b, COUNT_FIELD)
    ensures U64(a, SECTORS_FIELD) == U64(b, SECTORS_FIELD) && a[SECTOR_SHIFT] == b[SECTOR_SHIFT]
    ensures a[CLUSTER_SHIFT] == b[CLUSTER_SHIFT] && a[FATS_FIELD] == b[FATS_FIELD]
  {
    hide Times, Two, U64, U32;
  }

  lemma FieldsFromParameters(a: seq<byte>, b: seq<byte>)
    requires |a| >= MIN_SECTOR && |b| >= MIN_SECTOR && ParametersOf(a) == ParametersOf(b)
             && a[FATS_FIELD] == b[FATS_FIELD]
    ensures SameVolume(a, b)
  {
    hide Times, Two, U64, U32;
    TwoInjective(a[SECTOR_SHIFT], b[SECTOR_SHIFT]);
    var bps := Two(a[SECTOR_SHIFT]);
    TwoPositive(a[SECTOR_SHIFT]);
    TimesInjective(Two(a[CLUSTER_SHIFT]), Two(b[CLUSTER_SHIFT]), bps);
    TwoInjective(a[CLUSTER_SHIFT], b[CLUSTER_SHIFT]);
    TimesInjective(U64(a, SECTORS_FIELD), U64(b, SECTORS_FIELD), bps);
    TimesInjective(U32(a, FAT_OFFSET_FIELD), U32(b, FAT_OFFSET_FIELD), bps);
    TimesInjective(U32(a, FAT_LENGTH_FIELD), U32(b, FAT_LENGTH_FIELD), bps);
    TimesInjective(U32(a, HEAP_FIELD), U32(b, HEAP_FIELD), bps);
  }

  /** Root, flags and percentage are none of these fields. */
  lemma KinSameVolume(a: seq<byte>, b: seq<byte>)
    requires Kin(a, b)
    ensures SameVolume(a, b)
  {
    forall k | 72 <= k < 96 || 100 <= k < 104 || 108 <= k < 111 ensures a[k] == b[k] {
      NotVarying(k);
    }
  }

  lemma NotVarying(k: int)
    ensures 72 <= k < 96 || 100 <= k < 104 || 108 <= k < 111 ==> !Varying(k)
  {
  }

  lemma SameVolumeTrans(a: seq<byte>, b: seq<byte>, c: seq<byte>)
    requires |a| >= MIN_SECTOR && |b| >= MIN_SECTOR && |c| >= MIN_SECTOR && SameVolume(a, b) && SameVolume(b, c)
    ensures SameVolume(a, c)
  {
  }

  /** The commit rewrites the dirty bit only. */
  lemma BootHeadMedia(head: seq<byte>, root: nat, dirty: bool, percent: byte)
    requires |head| >= MIN_SECTOR && root < U32_LIMIT
    ensures MediaFailure(BootHead(head, root, dirty, percent)) <==> MediaFailure(head)
  {
    WithDirtyReads(U16(head, FLAGS_FIELD), dirty, 2);
    BootHeadFlags(head, root, dirty, percent);
  }

  lemma BootHeadFlags(head: seq<byte>, root: nat, dirty: bool, percent: byte)
    requires |head| >= MIN_SECTOR && root < U32_LIMIT
    ensures U16(BootHead(head, root, dirty, percent), FLAGS_FIELD) == WithDirty(U16(head, FLAGS_FIELD), dirty)
  {
    var flags := U16(head, FLAGS_FIELD);
    WithDirtyReads(flags, dirty, 1);
    var p2 := PutU16(PutU32(head, ROOT_FIELD, root), FLAGS_FIELD, WithDirty(flags, dirty));
    assert BootHead(head, root, dirty, percent) == p2[PERCENT_FIELD := percent];
  }

  /** Publishing flags publishes exactly those. */
  lemma FlaggedMedia(head: seq<byte>, flags: nat)
    requires |head| >= MIN_SECTOR && flags < U16_LIMIT
    ensures MediaFailure(FlaggedHead(head, flags)) <==> Bit(flags, 2)
  {
  }

  lemma TimesInjective(x: nat, y: nat, n: nat)
    requires n > 0 && Times(x, n) == Times(y, n)
    ensures x == y
  {
    Quotient(x * n, n, x, 0);
    Quotient(y * n, n, y, 0);
  }

  lemma {:induction false} TwoInjective(i: nat, j: nat)
    requires Two(i) == Two(j)
    ensures i == j
  {
    if i > 0 && j > 0 {
      TwoInjective(i - 1, j - 1);
    }
  }
}
