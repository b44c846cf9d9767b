/** Directory entry sets: how one file's group of 32-byte entries is read and how relayout patches it. */
module ExfatDirectory {
  import opened Bytes
  import opened Checksum
  import opened Wrappers

  const ENTRY := 32
  const FILE_ENTRY := 0x85
  const STREAM_ENTRY := 0xC0
  const NAME_ENTRY := 0xC1

  /** What one entry set says. stream is the offset of the stream extension inside the set. */
  datatype EntrySet = EntrySet(
    count: nat,
    stream: nat,
    name: seq<byte>,
    first: nat,
    valid: nat,
    length: nat,
    noFat: bool,
    directory: bool)

  datatype Secondary = Secondary(stream: Option<nat>, nameLength: nat, name: seq<byte>)

  /** The scan over secondary entries i .. n-1 of a set. */
  function Secondaries(set_: seq<byte>, n: nat, i: nat, acc: Secondary): Option<Secondary>
    requires |set_| == ENTRY * n && 1 <= i <= n
    decreases n - i
  {
    if i == n then Some(acc)
    else
      var so := ENTRY * i;
      if set_[so] == STREAM_ENTRY then
        if acc.stream.Some? then None
        else Secondaries(set_, n, i + 1, acc.(stream := Some(so), nameLength := set_[so + 3]))
      else if set_[so] == NAME_ENTRY then
        Secondaries(set_, n, i + 1, acc.(name := acc.name + set_[so + 2..so + 32]))
      else Secondaries(set_, n, i + 1, acc)
  }

  /** A stream extension found by the scan is one of the entries scanned, and the first of its type. */
  lemma {:induction false} SecondariesStream(set_: seq<byte>, n: nat, i: nat, acc: Secondary)
    requires |set_| == ENTRY * n && 1 <= i <= n
    requires Secondaries(set_, n, i, acc).Some? && acc.stream.None?
    ensures var r := Secondaries(set_, n, i, acc).value;
            FirstStream(set_, n, i) == r.stream
            && (r.stream.Some? ==> 32 <= r.stream.value <= |set_| - 32 && set_[r.stream.value] == STREAM_ENTRY)
    decreases n - i
  {
    if i < n {
      var so := ENTRY * i;
      if set_[so] == STREAM_ENTRY {
        StreamKept(set_, n, i + 1, acc.(stream := Some(so), nameLength := set_[so + 3]));
      } else if set_[so] == NAME_ENTRY {
        SecondariesStream(set_, n, i + 1, acc.(name := acc.name + set_[so + 2..so + 32]));
      } else {
        SecondariesStream(set_, n, i + 1, acc);
      }
    }
  }

  lemma {:induction false} StreamKept(set_: seq<byte>, n: nat, i: nat, acc: Secondary)
    requires |set_| == ENTRY * n && 1 <= i <= n
    requires Secondaries(set_, n, i, acc).Some? && acc.stream.Some?
    ensures Secondaries(set_, n, i, acc).value.stream == acc.stream
    ensures forall k | i <= k < n :: set_[ENTRY * k] != STREAM_ENTRY
    decreases n - i
  {
    if i < n {
      var so := ENTRY * i;
      if set_[so] == NAME_ENTRY {
        StreamKept(set_, n, i + 1, acc.(name := acc.name + set_[so + 2..so + 32]));
      } else {
        StreamKept(set_, n, i + 1, acc);
      }
    }
  }

  /** The first stream extension at or after secondary entry i. */
  function FirstStream(set_: seq<byte>, n: nat, i: nat): (r: Option<nat>)
    requires |set_| == ENTRY * n && 1 <= i <= n
    ensures r.Some? ==> ENTRY * i <= r.value <= |set_| - ENTRY && r.value % ENTRY == 0 && set_[r.value] == STREAM_ENTRY
    decreases n - i
  {
    if i == n then None
    else if set_[ENTRY * i] == STREAM_ENTRY then Some(ENTRY * i)
    else FirstStream(set_, n, i + 1)
  }

  const NoSecondary := Secondary(None, 0, [])

  /** Reading a whole entry set of n entries. */
  function ReadSet(set_: seq<byte>, n: nat): Result<EntrySet>
    requires n >= 2 && |set_| == ENTRY * n
  {
    if EntrySum(set_, |set_|) != U16(set_, 2) then Err("exFAT file entry-set checksum is invalid")
    else
      match Secondaries(set_, n, 1, NoSecondary)
      case None => Err("duplicate exFAT stream extension")
      case Some(s) =>
        if s.stream.None? then Err("exFAT file entry set has no stream extension")
        else if s.nameLength * 2 > |s.name| then Err("truncated exFAT file name")
        else
          SecondariesStream(set_, n, 1, NoSecondary);
          var t := s.stream.value;
          Ok(EntrySet(n, t, s.name[..s.nameLength * 2],
                      U32(set_, t + 20), U64(set_, t + 8), U64(set_, t + 24),
                      Bit(set_[t + 1], 1), Bit(U16(set_, 4), 4)))
  }

  /** Secondary entries of a type from entry i on. */
  function CountType(set_: seq<byte>, n: nat, i: nat, kind: byte): nat
    requires |set_| == ENTRY * n && 1 <= i <= n
    decreases n - i
  {
    if i == n then 0 else (if set_[ENTRY * i] == kind then 1 else 0) + CountType(set_, n, i + 1, kind)
  }

  /** The scan refuses a second stream extension and nothing else; it collects thirty bytes a name entry. */
  lemma {:induction false} SecondariesExact(set_: seq<byte>, n: nat, i: nat, acc: Secondary)
    requires |set_| == ENTRY * n && 1 <= i <= n
    ensures var streams := CountType(set_, n, i, STREAM_ENTRY);
            var r := Secondaries(set_, n, i, acc);
            && (r.Some? <==> streams == 0 || (streams == 1 && acc.stream.None?))
            && (r.Some? ==> |r.value.name| == |acc.name| + 30 * CountType(set_, n, i, NAME_ENTRY)
                            && (streams == 0 ==> r.value.stream == acc.stream && r.value.nameLength == acc.nameLength)
                            && (streams == 1 ==> r.value.stream == FirstStream(set_, n, i)
                                                 && r.value.stream.Some?
                                                    && r.value.nameLength == set_[r.value.stream.value + 3]))
    decreases n - i
  {
    if i < n {
      var so := ENTRY * i;
      if set_[so] == STREAM_ENTRY {
        SecondariesExact(set_, n, i + 1, acc.(stream := Some(so), nameLength := set_[so + 3]));
      } else if set_[so] == NAME_ENTRY {
        SecondariesExact(set_, n, i + 1, acc.(name := acc.name + set_[so + 2..so + 32]));
      } else {
        SecondariesExact(set_, n, i + 1, acc);
      }
    }
  }

  /** An entry set is accepted exactly when its checksum is right, it has one stream extension, and its name entries
      hold the whole name. */
  lemma ReadSetExactly(set_: seq<byte>, n: nat)
    requires n >= 2 && |set_| == ENTRY * n
    ensures ReadSet(set_, n).Ok? <==>
              && EntrySum(set_, |set_|) == U16(set_, 2) && CountType(set_, n, 1, STREAM_ENTRY) == 1
              && FirstStream(set_, n, 1).Some?
              && 2 * (set_[FirstStream(set_, n, 1).value + 3] as int) <= 30 * CountType(set_, n, 1, NAME_ENTRY)
  {
    SecondariesExact(set_, n, 1, NoSecondary);
  }

  /** Relayout's rewrite of one entry set: new first cluster, NoFatChain, fresh set checksum. */
  function PatchSet(set_: seq<byte>, n: nat, target: nat): (r: Option<seq<byte>>)
    requires n >= 2 && |set_| == ENTRY * n && target < U32_LIMIT
    ensures r.Some? ==> |r.value| == |set_|
  {
    match FirstStream(set_, n, 1)
    case None => None
    case Some(t) =>
      var p1 := PutU32(set_, t + 20, target);
      var p2 := p1[t + 1 := NoFatChain(p1[t + 1])];
      Some(PutU16(p2, 2, EntrySum(p2, |p2|)))
  }

  function NoFatChain(flags: byte): byte {
    SetBitIsByte(flags, 1);
    SetBit(flags, 1)
  }

  /** Sets that agree on every byte the scan looks at scan alike. */
  lemma {:induction false} SecondariesAgree(a: seq<byte>, b: seq<byte>, n: nat, i: nat, acc: Secondary)
    requires |a| == |b| == ENTRY * n && 1 <= i <= n
    requires forall k | i <= k < n :: a[ENTRY * k] == b[ENTRY * k]
    requires forall k | i <= k < n && a[ENTRY * k] == STREAM_ENTRY :: a[ENTRY * k + 3] == b[ENTRY * k + 3]
    requires forall k | i <= k < n && a[ENTRY * k] == NAME_ENTRY ::
               a[ENTRY * k..ENTRY * k + 32] == b[ENTRY * k..ENTRY * k + 32]
    ensures Secondaries(a, n, i, acc) == Secondaries(b, n, i, acc)
    decreases n - i
  {
    if i < n {
      var so := ENTRY * i;
      assert a[so] == b[so];
      if a[so] == STREAM_ENTRY {
        if acc.stream.None? {
          SecondariesAgree(a, b, n, i + 1, acc.(stream := Some(so), nameLength := a[so + 3]));
        }
      } else if a[so] == NAME_ENTRY {
        assert a[so + 2..so + 32] == a[so..so + 32][2..] == b[so..so + 32][2..] == b[so + 2..so + 32];
        SecondariesAgree(a, b, n, i + 1, acc.(name := acc.name + a[so + 2..so + 32]));
      } else {
        SecondariesAgree(a, b, n, i + 1, acc);
      }
    }
  }

  /** The bytes a patch may touch. */
  lemma PatchSetFrame(set_: seq<byte>, n: nat, target: nat)
    requires n >= 2 && |set_| == ENTRY * n && target < U32_LIMIT
    requires PatchSet(set_, n, target).Some?
    ensures FirstStream(set_, n, 1).Some?
    ensures var t := FirstStream(set_, n, 1).value; var p := PatchSet(set_, n, target).value;
            forall k | 0 <= k < |set_| && k != 2 && k != 3 && k != t + 1 && !(t + 20 <= k < t + 24) :: p[k] == set_[k]
  {
  }

  lemma PatchSetFields(set_: seq<byte>, n: nat, target: nat)
    requires n >= 2 && |set_| == ENTRY * n && target < U32_LIMIT
    requires FirstStream(set_, n, 1).Some?
    ensures PatchSet(set_, n, target).Some?
    ensures var t := FirstStream(set_, n, 1).value; var p := PatchSet(set_, n, target).value;
            && U32(p, t + 20) == target && U64(p, t + 8) == U64(set_, t + 8) && U64(p, t + 24) == U64(set_, t + 24)
            && U16(p, 4) == U16(set_, 4) && Bit(p[t + 1], 1)
  {
    var t := FirstStream(set_, n, 1).value;
    var p1 := PutU32(set_, t + 20, target);
    SetBitReads(p1[t + 1], 1, 1);
    var p := PatchSet(set_, n, target).value;
    PatchSetFrame(set_, n, target);
    assert U32(p, t + 20) == U32(p1, t + 20);
  }

  lemma PatchSetChecksum(set_: seq<byte>, n: nat, target: nat)
    requires n >= 2 && |set_| == ENTRY * n && target < U32_LIMIT
    requires PatchSet(set_, n, target).Some?
    ensures var p := PatchSet(set_, n, target).value; EntrySum(p, |p|) == U16(p, 2)
  {
    var t := FirstStream(set_, n, 1).value;
    var p1 := PutU32(set_, t + 20, target);
    var p2 := p1[t + 1 := NoFatChain(p1[t + 1])];
    EntrySumIgnoresItself(p2, PatchSet(set_, n, target).value, |p2|);
  }

  lemma PatchSetSecondaries(set_: seq<byte>, n: nat, target: nat)
    requires n >= 2 && |set_| == ENTRY * n && target < U32_LIMIT
    requires PatchSet(set_, n, target).Some?
    ensures Secondaries(PatchSet(set_, n, target).value, n, 1, NoSecondary) == Secondaries(set_, n, 1, NoSecondary)
  {
    var t := FirstStream(set_, n, 1).value;
    var p := PatchSet(set_, n, target).value;
    PatchSetFrame(set_, n, target);
    forall k | 1 <= k < n
      ensures set_[ENTRY * k] == p[ENTRY * k]
      ensures set_[ENTRY * k + 3] == p[ENTRY * k + 3]
      ensures set_[ENTRY * k] == NAME_ENTRY ==> set_[ENTRY * k..ENTRY * k + 32] == p[ENTRY * k..ENTRY * k + 32]
    {
      EntryApart(t, k);
    }
    SecondariesAgree(set_, p, n, 1, NoSecondary);
  }

  lemma EntryApart(t: nat, k: nat)
    requires t % ENTRY == 0
    ensures ENTRY * k == t || ENTRY * k + 32 <= t || t + 32 <= ENTRY * k
  {
  }

  /** A patched set reads as the old one with the new first cluster and NoFatChain set; its checksum is valid. */
  lemma PatchSetReads(set_: seq<byte>, n: nat, target: nat)
    requires n >= 2 && |set_| == ENTRY * n && target < U32_LIMIT
    requires ReadSet(set_, n).Ok?
    ensures PatchSet(set_, n, target).Some?
    ensures ReadSet(PatchSet(set_, n, target).value, n)
         == Ok(ReadSet(set_, n).value.(first := target, noFat := true))
  {
    SecondariesStream(set_, n, 1, NoSecondary);
    PatchSetFields(set_, n, target);
    PatchSetChecksum(set_, n, target);
    PatchSetSecondaries(set_, n, target);
  }
}
