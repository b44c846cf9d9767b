/** The two boot copies: which fields relayout rewrites, what keeps a copy valid, and what a torn copy can be. */
module ExfatBoot {
  import opened Bytes
  import opened Checksum

  const ROOT_FIELD := 96
  const FLAGS_FIELD := 106
  const PERCENT_FIELD := 112
  const MIN_SECTOR := 512

  // A copy is split at sector borders: head is sector 0, rest sectors 1 to 10, sum the checksum sector.

  function HeadSum(head: seq<byte>, rest: seq<byte>): (r: int)
    ensures 0 <= r < U32_LIMIT
  {
    BootSum(head + rest, |head| + |rest|)
  }

  const SIGNATURE: seq<byte> := [69, 88, 70, 65, 84, 32, 32, 32]

  predicate Filled(sum: seq<byte>, v: int) {
    && |sum| % 4 == 0
    && forall o | 0 <= o && o + 4 <= |sum| && o % 4 == 0 :: U32(sum, o) == v
  }

  /** A boot copy passes validation: signature, and every word of the checksum sector is the checksum. */
  predicate ValidCopy(head: seq<byte>, rest: seq<byte>, sum: seq<byte>) {
    && |head| >= MIN_SECTOR && head[3..11] == SIGNATURE
    && Filled(sum, HeadSum(head, rest))
  }

  predicate Dirty(head: seq<byte>) {
    |head| >= MIN_SECTOR && Bit(U16(head, FLAGS_FIELD), 1)
  }

  function RootOf(head: seq<byte>): nat
    requires |head| >= MIN_SECTOR
  {
    U32(head, ROOT_FIELD)
  }

  function WithDirty(flags: nat, dirty: bool): nat {
    if Bit(flags, 1) == dirty then flags else if dirty then flags + 2 else flags - 2
  }

  /** Setting or clearing the dirty bit leaves every other flag. */
  lemma {:induction false} WithDirtyReads(flags: nat, dirty: bool, j: nat)
    requires flags < U16_LIMIT
    ensures 0 <= WithDirty(flags, dirty) < U16_LIMIT
    ensures Bit(WithDirty(flags, dirty), j) <==> if j == 1 then dirty else Bit(flags, j)
  {
    var f := WithDirty(flags, dirty);
    assert Bit(flags, 1) <==> Bit(flags / 2, 0);
    assert Bit(f, 1) <==> Bit(f / 2, 0);
    assert f % 2 == flags % 2 && f / 2 / 2 == flags / 2 / 2;
    if j >= 2 {
      assert Bit(f, j) == Bit(f / 2, j - 1) == Bit(f / 2 / 2, j - 2);
      assert Bit(flags, j) == Bit(flags / 2, j - 1) == Bit(flags / 2 / 2, j - 2);
    }
  }

  /** The sector that publishing a dirty flag writes: only the flag bytes change. */
  function FlaggedHead(head: seq<byte>, flags: nat): (r: seq<byte>)
    requires |head| >= MIN_SECTOR && flags < U16_LIMIT
    ensures |r| == |head|
  {
    PutU16(head, FLAGS_FIELD, flags)
  }

  /** Sector 0 of a boot copy as the final commit writes it. */
  function BootHead(head: seq<byte>, root: nat, dirty: bool, percent: byte): (r: seq<byte>)
    requires |head| >= MIN_SECTOR && root < U32_LIMIT
    ensures |r| == |head|
  {
    WithDirtyReads(U16(head, FLAGS_FIELD), dirty, 1);
    PutU16(PutU32(head, ROOT_FIELD, root), FLAGS_FIELD,
        WithDirty(U16(head, FLAGS_FIELD), dirty))[PERCENT_FIELD := percent]
  }

  /** A checksum sector of the given length. */
  function SumSector(length: nat, v: int): (r: seq<byte>)
    requires 0 <= v < U32_LIMIT
    ensures |r| == length
  {
    seq(length, k requires 0 <= k => LeByte(v, k % 4))
  }

  lemma SumSectorFilled(length: nat, v: int)
    requires 0 <= v < U32_LIMIT && length % 4 == 0
    ensures Filled(SumSector(length, v), v)
  {
    var s := SumSector(length, v);
    forall o | 0 <= o && o + 4 <= length && o % 4 == 0 ensures U32(s, o) == v {
      assert o % 4 == 0 && (o + 1) % 4 == 1 && (o + 2) % 4 == 2 && (o + 3) % 4 == 3;
      LeBytesSum(v);
    }
  }

  /** A checksum sector is determined by its checksum. */
  lemma FilledUnique(a: seq<byte>, b: seq<byte>, v: int)
    requires Filled(a, v) && Filled(b, v) && |a| == |b|
    ensures a == b
  {
    forall k | 0 <= k < |a| ensures a[k] == b[k] {
      var o := k - k % 4;
      U32Injective(a, o, b, o);
    }
  }

  method FillChecksumSector(sum: array<byte>, v: int)
    requires 0 <= v < U32_LIMIT && sum.Length % 4 == 0
    modifies sum
    ensures sum[..] == SumSector(sum.Length, v)
  {
    var offset := 0;
    while offset + 4 <= sum.Length
      invariant 0 <= offset <= sum.Length && offset % 4 == 0
      invariant forall k | 0 <= k < offset :: sum[k] == LeByte(v, k % 4)
    {
      sum[offset] := LeByte(v, 0);
      sum[offset + 1] := LeByte(v, 1);
      sum[offset + 2] := LeByte(v, 2);
      sum[offset + 3] := LeByte(v, 3);
      assert (offset + 1) % 4 == 1 && (offset + 2) % 4 == 2 && (offset + 3) % 4 == 3;
      offset := offset + 4;
    }
  }

  method RegionValid(head: seq<byte>, rest: seq<byte>, sum: seq<byte>) returns (valid: bool)
    requires |head| >= MIN_SECTOR && |sum| % 4 == 0
    ensures valid == ValidCopy(head, rest, sum)
  {
    if head[3..11] != SIGNATURE { return false; }
    var expected := BootChecksum(head + rest);
    var offset := 0;
    while offset + 4 <= |sum|
      invariant 0 <= offset <= |sum| && offset % 4 == 0
      invariant forall o | 0 <= o < offset && o % 4 == 0 :: U32(sum, o) == expected
    {
      if U32(sum, offset) != expected { return false; }
      offset := offset + 4;
    }
    return true;
  }

  // ---- what the checksum does not see -----------------------------------------------------------

  /** Bytes that differ between boot copies over a relayout: the root cluster, the flags and the percentage. */
  predicate Varying(k: int) {
    ROOT_FIELD <= k < ROOT_FIELD + 4 || BootExcluded(k)
  }

  /** Two sectors 0 of one volume, at any moments of a relayout. */
  predicate Kin(a: seq<byte>, b: seq<byte>) {
    && |a| == |b| && |a| >= MIN_SECTOR
    && forall k | 0 <= k < |a| && !Varying(k) :: a[k] == b[k]
  }

  lemma KinSignature(a: seq<byte>, b: seq<byte>)
    requires Kin(a, b)
    ensures a[3..11] == b[3..11]
  {
  }

  /** Kin sectors with the same root have the same checksum: flags and percentage are not summed. */
  lemma KinSum(a: seq<byte>, b: seq<byte>, rest: seq<byte>)
    requires Kin(a, b) && RootOf(a) == RootOf(b)
    ensures HeadSum(a, rest) == HeadSum(b, rest)
  {
    U32Injective(a, ROOT_FIELD, b, ROOT_FIELD);
    var d, e := a + rest, b + rest;
    forall k | 0 <= k < |d| && !BootExcluded(k) ensures d[k] == e[k] {
      if k < |a| && Varying(k) {
        assert k == 96 || k == 97 || k == 98 || k == 99;
      }
    }
    BootSumIgnoresFlags(d, e, |d|);
  }

  lemma FlaggedFields(head: seq<byte>, flags: nat)
    requires |head| >= MIN_SECTOR && flags < U16_LIMIT
    ensures Kin(head, FlaggedHead(head, flags)) && RootOf(FlaggedHead(head, flags)) == RootOf(head)
    ensures Dirty(FlaggedHead(head, flags)) <==> Bit(flags, 1)
  {
  }

  lemma BootHeadFields(head: seq<byte>, root: nat, dirty: bool, percent: byte)
    requires |head| >= MIN_SECTOR && root < U32_LIMIT
    ensures var h := BootHead(head, root, dirty, percent);
            Kin(head, h) && RootOf(h) == root && h[PERCENT_FIELD] == percent && (Dirty(h) <==> dirty)
  {
    var flags := U16(head, FLAGS_FIELD);
    WithDirtyReads(flags, dirty, 1);
    var p1 := PutU32(head, ROOT_FIELD, root);
    var p2 := PutU16(p1, FLAGS_FIELD, WithDirty(flags, dirty));
    var h := BootHead(head, root, dirty, percent);
    assert h == p2[PERCENT_FIELD := percent];
    assert U32(p2, ROOT_FIELD) == U32(p1, ROOT_FIELD) == root;
    assert U16(h, FLAGS_FIELD) == U16(p2, FLAGS_FIELD);
  }

  /** Publishing the dirty flag keeps a valid copy valid, whatever flags are written. */
  lemma FlagKeepsValid(head: seq<byte>, rest: seq<byte>, sum: seq<byte>, flags: nat)
    requires ValidCopy(head, rest, sum) && flags < U16_LIMIT
    ensures ValidCopy(FlaggedHead(head, flags), rest, sum)
  {
    FlaggedFields(head, flags);
    KinSignature(head, FlaggedHead(head, flags));
    KinSum(head, FlaggedHead(head, flags), rest);
  }

  /** The copy the final commit writes is valid. */
  lemma BootStateValid(head: seq<byte>, rest: seq<byte>, root: nat, dirty: bool, percent: byte, length: nat)
    requires |head| >= MIN_SECTOR && head[3..11] == SIGNATURE && root < U32_LIMIT && length % 4 == 0
    ensures var h := BootHead(head, root, dirty, percent); ValidCopy(h, rest, SumSector(length, HeadSum(h, rest)))
  {
    BootHeadFields(head, root, dirty, percent);
    var h := BootHead(head, root, dirty, percent);
    KinSignature(head, h);
    SumSectorFilled(length, HeadSum(h, rest));
  }

  /** A torn copy, sector 0 from one version and the checksum sector from the other, is valid only if it is
      one of the two versions entirely. */
  lemma TornCopyIsWhole(head0: seq<byte>, sum0: seq<byte>, head1: seq<byte>, sum1: seq<byte>, rest: seq<byte>,
                        head: seq<byte>, sum: seq<byte>)
    requires ValidCopy(head0, rest, sum0) && ValidCopy(head1, rest, sum1) && |sum0| == |sum1|
    requires (head == head0 || head == head1) && (sum == sum0 || sum == sum1)
    ensures ValidCopy(head, rest, sum) <==> (head == head0 && sum == sum0) || (head == head1 && sum == sum1)
  {
    if ValidCopy(head, rest, sum) {
      if head == head0 { FilledUnique(sum0, sum, HeadSum(head0, rest)); }
      else { FilledUnique(sum1, sum, HeadSum(head1, rest)); }
    }
  }
}
