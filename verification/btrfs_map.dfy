/** Btrfs address mapping: logical addresses to physical ranges over sorted, disjoint chunks. */
module BtrfsMap {
  import opened Wrappers
  import opened Bytes
  import opened Intervals
  import opened BtrfsSet

  datatype Stripe = Stripe(devid: u64, physical: u64)

  datatype Chunk = Chunk(logical: u64, length: u64, kind: u64, stripes: seq<Stripe>)

  predicate Contains(c: Chunk, x: int) {
    c.logical <= x < c.logical + c.length
  }

  /** RAID0, RAID10, RAID5 and RAID6. */
  predicate Striped(kind: u64) {
    Bit(kind, 3) || Bit(kind, 6) || Bit(kind, 7) || Bit(kind, 8)
  }

  predicate Local(s: Stripe, devid: u64) {
    s.devid == devid
  }

  /** The stripes on this device. */
  function Locals(stripes: seq<Stripe>, devid: u64): (r: seq<Stripe>)
    ensures forall s | s in r :: s in stripes && Local(s, devid)
  {
    if stripes == [] then []
    else Locals(stripes[..|stripes| - 1], devid) + (if Local(stripes[|stripes| - 1], devid)
        then [stripes[|stripes| - 1]] else [])
  }

  predicate ChunkOk(c: Chunk, devid: u64, size: u64) {
    && c.logical + c.length < U64_LIMIT && !Striped(c.kind)
    && (forall i | 0 <= i < |c.stripes| && Local(c.stripes[i], devid) :: c.stripes[i].physical + c.length <= size)
    && Locals(c.stripes, devid) != []
  }

  /** What preparation accepts, of chunks in the order of the library's sort. */
  predicate Prepared(chunks: seq<Chunk>, devid: u64, size: u64) {
    && (forall i | 0 <= i < |chunks| :: ChunkOk(chunks[i], devid, size))
    && (forall i | 0 < i < |chunks| :: chunks[i - 1].logical + chunks[i - 1].length <= chunks[i].logical)
  }

  /** Prepared chunks are pairwise disjoint and in order. */
  lemma {:induction false} PreparedApart(chunks: seq<Chunk>, devid: u64, size: u64, i: nat, j: nat)
    requires Prepared(chunks, devid, size) && i < j < |chunks|
    ensures chunks[i].logical + chunks[i].length <= chunks[j].logical
    decreases j
  {
    if i < j - 1 {
      PreparedApart(chunks, devid, size, i, j - 1);
    }
  }

  /** The chunk that contains an address, if any. */
  function Find(chunks: seq<Chunk>, x: int): (r: Option<nat>)
    ensures r.Some? ==> r.value < |chunks| && Contains(chunks[r.value], x)
    ensures r.None? ==> forall i | 0 <= i < |chunks| :: !Contains(chunks[i], x)
  {
    if chunks == [] then None
    else if Contains(chunks[|chunks| - 1], x) then Some(|chunks| - 1)
    else Find(chunks[..|chunks| - 1], x)
  }

  /** No other chunk contains it. */
  lemma FindUnique(chunks: seq<Chunk>, devid: u64, size: u64, x: int, i: nat)
    requires Prepared(chunks, devid, size) && i < |chunks| && Contains(chunks[i], x)
    ensures Find(chunks, x) == Some(i)
  {
    var f := Find(chunks, x).value;
    if f < i {
      PreparedApart(chunks, devid, size, f, i);
    } else if i < f {
      PreparedApart(chunks, devid, size, i, f);
    }
  }

  lemma PreparedNext(chunks: seq<Chunk>, devid: u64, size: u64, i: nat)
    requires i < |chunks|
    ensures Prepared(chunks[..i + 1], devid, size) <==>
              && Prepared(chunks[..i], devid, size) && ChunkOk(chunks[i], devid, size)
              && (i > 0 ==> chunks[i - 1].logical + chunks[i - 1].length <= chunks[i].logical)
  {
    hide ChunkOk;
    var a, b := chunks[..i], chunks[..i + 1];
    assert forall k | 0 <= k < i :: a[k] == b[k];
    assert b[i] == chunks[i];
  }

  lemma {:induction false} PreparedPrefix(chunks: seq<Chunk>, devid: u64, size: u64, i: nat)
    requires i <= |chunks| && Prepared(chunks, devid, size)
    ensures Prepared(chunks[..i], devid, size)
  {
    hide ChunkOk;
  }

  method MapperPrepare(chunks: seq<Chunk>, devid: u64, size: u64) returns (ok: bool)
    ensures ok == Prepared(chunks, devid, size)
  {
    hide Prepared, ChunkOk;
    var previousEnd: int := 0;
    for i := 0 to |chunks|
      invariant Prepared(chunks[..i], devid, size) || i == 0
      invariant i > 0 ==> previousEnd == chunks[i - 1].logical + chunks[i - 1].length
    {
      PreparedNext(chunks, devid, size, i);
      NonePrepared(devid, size);
      assert i == 0 ==> chunks[..i] == [];
      if Prepared(chunks, devid, size) {
        PreparedPrefix(chunks, devid, size, i + 1);
      }
      if i > 0 && chunks[i].logical < previousEnd {
        return false;
      }
      var fits := CheckChunk(chunks[i], devid, size);
      if !fits {
        return false;
      }
      previousEnd := chunks[i].logical + chunks[i].length;
    }
    NonePrepared(devid, size);
    assert chunks[..|chunks|] == chunks;
    ok := true;
  }

  lemma NonePrepared(devid: u64, size: u64)
    ensures Prepared([], devid, size)
  {
  }

  /** The checks on one chunk: no overflow, no striped profile, and local stripes that exist and lie on the device. */
  method CheckChunk(chunk: Chunk, devid: u64, size: u64) returns (ok: bool)
    ensures ok == ChunkOk(chunk, devid, size)
  {
    hide Striped;
    if chunk.logical > U64_LIMIT - 1 - chunk.length {
      return false;
    }
    if Striped(chunk.kind) {
      return false;
    }
    var local := 0;
    for s := 0 to |chunk.stripes|
      invariant local == |Locals(chunk.stripes[..s], devid)|
      invariant forall k | 0 <= k < s && Local(chunk.stripes[k], devid) ::
                  chunk.stripes[k].physical + chunk.length <= size
    {
      assert chunk.stripes[..s + 1][..s] == chunk.stripes[..s];
      if chunk.stripes[s].devid == devid {
        var physical := chunk.stripes[s].physical;
        if physical > size || chunk.length > size - physical {
          assert Local(chunk.stripes[s], devid);
          return false;
        }
        local := local + 1;
      }
    }
    assert chunk.stripes[..|chunk.stripes|] == chunk.stripes;
    ok := local != 0;
  }

  /** All chunks up to i start at or before an address that chunk i does; and none before it reaches chunk i. */
  lemma OrderAround(chunks: seq<Chunk>, devid: u64, size: u64, i: nat)
    requires Prepared(chunks, devid, size) && i < |chunks|
    ensures forall k | 0 <= k < i :: chunks[k].logical <= chunks[k].logical + chunks[k].length <= chunks[i].logical
    ensures forall k | i < k < |chunks| :: chunks[i].logical + chunks[i].length <= chunks[k].logical
  {
    hide Prepared;
    forall k | 0 <= k < i ensures chunks[k].logical + chunks[k].length <= chunks[i].logical {
      PreparedApart(chunks, devid, size, k, i);
    }
    forall k | i < k < |chunks| ensures chunks[i].logical + chunks[i].length <= chunks[k].logical {
      PreparedApart(chunks, devid, size, i, k);
    }
  }

  /** Binary search for the last chunk that starts at or before the address. */
  method MapperFind(chunks: seq<Chunk>, ghost devid: u64, ghost size: u64, logical: u64) returns (r: Option<nat>)
    requires Prepared(chunks, devid, size)
    ensures r == Find(chunks, logical)
  {
    hide Prepared;
    var low, high := 0, |chunks|;
    while low < high
      invariant low <= high <= |chunks|
      invariant low > 0 ==> chunks[low - 1].logical <= logical
      invariant high < |chunks| ==> chunks[high].logical > logical
    {
      var middle := low + (high - low) / 2;
      if chunks[middle].logical <= logical {
        low := middle + 1;
      } else {
        high := middle;
      }
    }
    if high < |chunks| {
      OrderAround(chunks, devid, size, high);
    }
    if low > 0 {
      OrderAround(chunks, devid, size, low - 1);
    }
    if low == 0 || logical - chunks[low - 1].logical >= chunks[low - 1].length {
      assert forall i | 0 <= i < |chunks| :: !Contains(chunks[i], logical);
      return None;
    }
    FindUnique(chunks, devid, size, logical, low - 1);
    r := Some(low - 1);
  }

  // ---- splitting an extent ----------------------------------------------------------------------

  /** One piece on each local mirror. */
  function Mirrors(stripes: seq<Stripe>, delta: nat, take: nat): (r: seq<Range>)
    ensures |r| == |stripes|
    ensures forall i | 0 <= i < |r| :: r[i] == Range(stripes[i].physical + delta, stripes[i].physical + delta + take)
  {
    seq(|stripes|, i requires 0 <= i < |stripes| => Range(stripes[i].physical + delta,
        stripes[i].physical + delta + take))
  }

  function Smaller(a: nat, b: nat): nat {
    if a < b then a else b
  }

  /** The physical pieces of a logical extent, chunk by chunk; None when part of it is not mapped. */
  function Pieces(chunks: seq<Chunk>, devid: u64, cursor: nat, remaining: nat): Option<seq<Range>>
    decreases remaining
  {
    if remaining == 0 then Some([])
    else
      match Find(chunks, cursor)
      case None => None
      case Some(i) =>
        var delta := cursor - chunks[i].logical;
        var take := Smaller(remaining, chunks[i].length - delta);
        match Pieces(chunks, devid, cursor + take, remaining - take)
        case None => None
        case Some(rest) => Some(Mirrors(Locals(chunks[i].stripes, devid), delta, take) + rest)
  }

  method MapperRanges(chunks: seq<Chunk>, devid: u64, size: u64, logical: u64, length: u64, output: seq<Range>)
      returns (r: Option<seq<Range>>)
    requires Prepared(chunks, devid, size)
    ensures r == match Pieces(chunks, devid, logical, length)
                 case None => None
                 case Some(pieces) => Some(output + pieces)
  {
    hide Prepared, Find, Mirrors, Locals, Striped;
    var cursor: nat, remaining: nat := logical, length;
    var out := output;
    while remaining != 0
      invariant remaining != 0 ==> cursor < U64_LIMIT
      invariant Extended(out, Pieces(chunks, devid, cursor, remaining))
                == Extended(output, Pieces(chunks, devid, logical, length))
      decreases remaining
    {
      var found := MapperFind(chunks, devid, size, cursor);
      if found.None? {
        return None;
      }
      var chunk := chunks[found.value];
      var delta := cursor - chunk.logical;
      var available := chunk.length - delta;
      var take := if remaining < available then remaining else available;
      ghost var rest := Pieces(chunks, devid, cursor + take, remaining - take);
      FoundFits(chunks, devid, size, found.value);
      var pushed := PushMirrors(chunk, devid, size, delta, take, out);
      ExtendedTwice(out, Mirrors(Locals(chunk.stripes, devid), delta, take), rest);
      out := pushed;
      cursor := cursor + take;
      remaining := remaining - take;
    }
    assert out + [] == out;
    r := Some(out);
  }

  function Extended(out: seq<Range>, pieces: Option<seq<Range>>): Option<seq<Range>> {
    match pieces
    case None => None
    case Some(p) => Some(out + p)
  }

  lemma ExtendedTwice(out: seq<Range>, here: seq<Range>, rest: Option<seq<Range>>)
    ensures rest.Some? ==> Extended(out + here, rest) == Extended(out, Some(here + rest.value))
  {
    if rest.Some? {
      assert out + here + rest.value == out + (here + rest.value);
    }
  }

  lemma FoundFits(chunks: seq<Chunk>, devid: u64, size: u64, i: nat)
    requires Prepared(chunks, devid, size) && i < |chunks|
    ensures ChunkOk(chunks[i], devid, size)
  {
  }

  /** The loop over the stripes of one chunk: every local one gets a range, none of them outside the device. */
  method PushMirrors(chunk: Chunk, devid: u64, size: u64, delta: nat, take: nat,
      output: seq<Range>) returns (out: seq<Range>)
    requires ChunkOk(chunk, devid, size) && delta + take <= chunk.length && take > 0
    ensures out == output + Mirrors(Locals(chunk.stripes, devid), delta, take)
  {
    hide Mirrors, Striped, Locals;
    out := output;
    var local := 0;
    NoMirrors(delta, take);
    NoLocals(devid);
    for i := 0 to |chunk.stripes|
      invariant out == output + Mirrors(Locals(chunk.stripes[..i], devid), delta, take)
      invariant local == |Locals(chunk.stripes[..i], devid)|
    {
      LocalsNext(chunk.stripes, devid, i);
      if chunk.stripes[i].devid == devid {
        var start := chunk.stripes[i].physical + delta;
        assert Local(chunk.stripes[i], devid) && start + take <= size;
        MoreMirrors(Locals(chunk.stripes[..i], devid), chunk.stripes[i], delta, take);
        out := out + [Range(start, start + take)];
        local := local + 1;
      }
    }
    assert chunk.stripes[..|chunk.stripes|] == chunk.stripes;
    assert local > 0;
  }

  lemma NoLocals(devid: u64)
    ensures Locals([], devid) == []
  {
  }

  lemma LocalsNext(stripes: seq<Stripe>, devid: u64, i: nat)
    requires i < |stripes|
    ensures Locals(stripes[..i + 1], devid)
         == Locals(stripes[..i], devid) + (if Local(stripes[i], devid) then [stripes[i]] else [])
  {
    assert stripes[..i + 1][..i] == stripes[..i];
  }

  lemma NoMirrors(delta: nat, take: nat)
    ensures Mirrors([], delta, take) == []
  {
  }

  lemma MoreMirrors(stripes: seq<Stripe>, s: Stripe, delta: nat, take: nat)
    ensures Mirrors(stripes + [s], delta, take)
            == Mirrors(stripes, delta, take) + [Range(s.physical + delta, s.physical + delta + take)]
  {
  }

  // ---- what the pieces are ----------------------------------------------------------------------

  /** How many of the ranges hold the physical byte. */
  function Cover(ranges: seq<Range>, p: nat): nat {
    if ranges == [] then 0 else Cover(ranges[..|ranges| - 1], p) + (if In(ranges[|ranges| - 1], p) then 1 else 0)
  }

  /** How many local stripes put offset delta of the chunk at the physical byte. */
  function Hits(stripes: seq<Stripe>, delta: int, p: nat): nat {
    if stripes == [] then 0
    else Hits(stripes[..|stripes| - 1], delta, p) + (if stripes[|stripes| - 1].physical + delta == p then 1 else 0)
  }

  /** How many times a mapped logical byte lies at the physical byte: once for every local mirror that puts it there. */
  function ByteHits(chunks: seq<Chunk>, devid: u64, x: nat, p: nat): nat {
    match Find(chunks, x)
    case None => 0
    case Some(i) => Hits(Locals(chunks[i].stripes, devid), x - chunks[i].logical, p)
  }

  /** The same over the bytes [from, from + n). */
  function SumHits(chunks: seq<Chunk>, devid: u64, from: nat, n: nat, p: nat): nat {
    if n == 0 then 0 else SumHits(chunks, devid, from, n - 1, p) + ByteHits(chunks, devid, from + n - 1, p)
  }

  lemma {:induction false} CoverJoins(a: seq<Range>, b: seq<Range>, p: nat)
    ensures Cover(a + b, p) == Cover(a, p) + Cover(b, p)
  {
    if b == [] {
      assert a + b == a;
    } else {
      var front := b[..|b| - 1];
      assert (a + b)[..|a + b| - 1] == a + front;
      CoverJoins(a, front, p);
    }
  }

  lemma {:induction false} SumJoins(chunks: seq<Chunk>, devid: u64, from: nat, n: nat, m: nat, p: nat)
    ensures SumHits(chunks, devid, from, n + m, p)
            == SumHits(chunks, devid, from, n, p) + SumHits(chunks, devid, from + n, m, p)
  {
    if m > 0 {
      SumJoins(chunks, devid, from, n, m - 1, p);
    }
  }

  /** One more byte of every mirror: each stripe's range grows by the byte that the stripe maps it to. */
  lemma {:induction false} MirrorsGrow(stripes: seq<Stripe>, delta: nat, take: nat, p: nat)
    ensures Cover(Mirrors(stripes, delta, take + 1), p)
            == Cover(Mirrors(stripes, delta, take), p) + Hits(stripes, delta + take, p)
  {
    if stripes != [] {
      var front, last := stripes[..|stripes| - 1], stripes[|stripes| - 1];
      MirrorsGrow(front, delta, take, p);
      MirrorsLast(stripes, delta, take, p);
      MirrorsLast(stripes, delta, take + 1, p);
    }
  }

  lemma MirrorsLast(stripes: seq<Stripe>, delta: nat, take: nat, p: nat)
    requires stripes != []
    ensures Cover(Mirrors(stripes, delta, take), p)
         == Cover(Mirrors(stripes[..|stripes| - 1], delta, take), p)
            + (if stripes[|stripes| - 1].physical + delta <= p < stripes[|stripes| - 1].physical + delta + take
                then 1 else 0)
  {
    var m := Mirrors(stripes, delta, take);
    assert m[..|m| - 1] == Mirrors(stripes[..|stripes| - 1], delta, take);
  }

  lemma {:induction false} MirrorsEmpty(stripes: seq<Stripe>, delta: nat, p: nat)
    ensures Cover(Mirrors(stripes, delta, 0), p) == 0
  {
    if stripes != [] {
      MirrorsLast(stripes, delta, 0, p);
      MirrorsEmpty(stripes[..|stripes| - 1], delta, p);
    }
  }

  /** A piece inside one chunk holds each of its bytes at exactly the places the chunk's mirrors give it. */
  lemma {:induction false} PieceExact(chunks: seq<Chunk>, devid: u64, size: u64, i: nat, cursor: nat, take: nat, p: nat)
    requires Prepared(chunks, devid, size) && i < |chunks|
    requires chunks[i].logical <= cursor && cursor + take <= chunks[i].logical + chunks[i].length
    ensures Cover(Mirrors(Locals(chunks[i].stripes, devid), cursor - chunks[i].logical, take), p)
         == SumHits(chunks, devid, cursor, take, p)
  {
    hide Prepared, Find, Locals, Cover, Hits, Mirrors;
    var stripes, delta := Locals(chunks[i].stripes, devid), cursor - chunks[i].logical;
    if take == 0 {
      MirrorsEmpty(stripes, delta, p);
    } else {
      PieceExact(chunks, devid, size, i, cursor, take - 1, p);
      MirrorsGrow(stripes, delta, take - 1, p);
      FindUnique(chunks, devid, size, cursor + take - 1, i);
    }
  }

  /** The pieces of an extent hold every logical byte at exactly its physical address on every local mirror, as often as
      it is mapped there and no more; nothing else is in them. */
  lemma {:induction false} PiecesExact(chunks: seq<Chunk>, devid: u64, size: u64, cursor: nat, remaining: nat, p: nat)
    requires Prepared(chunks, devid, size) && Pieces(chunks, devid, cursor, remaining).Some?
    ensures Cover(Pieces(chunks, devid, cursor, remaining).value, p) == SumHits(chunks, devid, cursor, remaining, p)
    decreases remaining
  {
    hide Prepared, Find, Cover, SumHits;
    if remaining == 0 {
      NoPieces(chunks, devid, cursor, p);
    } else {
      var i := Find(chunks, cursor).value;
      var delta := cursor - chunks[i].logical;
      var take := Smaller(remaining, chunks[i].length - delta);
      PiecesExact(chunks, devid, size, cursor + take, remaining - take, p);
      PieceExact(chunks, devid, size, i, cursor, take, p);
      CoverJoins(Mirrors(Locals(chunks[i].stripes, devid), delta, take),
          Pieces(chunks, devid, cursor + take, remaining - take).value, p);
      SumJoins(chunks, devid, cursor, take, remaining - take, p);
    }
  }

  lemma NoPieces(chunks: seq<Chunk>, devid: u64, cursor: nat, p: nat)
    ensures Cover([], p) == 0 == SumHits(chunks, devid, cursor, 0, p)
  {
  }

  predicate AllMapped(chunks: seq<Chunk>, from: nat, n: nat) {
    forall x | from <= x < from + n :: Find(chunks, x).Some?
  }

  lemma MappedSplits(chunks: seq<Chunk>, from: nat, n: nat, m: nat)
    ensures AllMapped(chunks, from, n + m) <==> AllMapped(chunks, from, n) && AllMapped(chunks, from + n, m)
    ensures m > 0 && Find(chunks, from + n).None? ==> !AllMapped(chunks, from + n, m)
  {
    hide Find;
  }

  lemma MappedInChunk(chunks: seq<Chunk>, devid: u64, size: u64, i: nat, from: nat, n: nat)
    requires Prepared(chunks, devid, size) && i < |chunks|
    requires chunks[i].logical <= from && from + n <= chunks[i].logical + chunks[i].length
    ensures AllMapped(chunks, from, n)
  {
    hide Prepared, Find;
    forall x | from <= x < from + n ensures Find(chunks, x).Some? {
      FindUnique(chunks, devid, size, x, i);
    }
  }

  /** The split succeeds exactly when every byte of the extent lies in a chunk. */
  lemma {:induction false} PiecesUnlessUnmapped(chunks: seq<Chunk>, devid: u64, size: u64, cursor: nat, remaining: nat)
    requires Prepared(chunks, devid, size)
    ensures Pieces(chunks, devid, cursor, remaining).Some? <==> AllMapped(chunks, cursor, remaining)
    decreases remaining
  {
    hide Prepared, Find, Mirrors, Locals;
    MappedSplits(chunks, cursor, 0, remaining);
    if remaining > 0 && Find(chunks, cursor).Some? {
      hide AllMapped;
      var i := Find(chunks, cursor).value;
      var take := Smaller(remaining, chunks[i].length - (cursor - chunks[i].logical));
      PiecesUnlessUnmapped(chunks, devid, size, cursor + take, remaining - take);
      MappedInChunk(chunks, devid, size, i, cursor, take);
      MappedSplits(chunks, cursor, take, remaining - take);
    }
  }

  // ---- lengths ----------------------------------------------------------------------------------

  function Length(ranges: seq<Range>): int {
    if ranges == [] then 0 else Length(ranges[..|ranges| - 1]) + (ranges[|ranges| - 1].end - ranges[|ranges| - 1].start)
  }

  lemma {:induction false} LengthJoins(a: seq<Range>, b: seq<Range>)
    ensures Length(a + b) == Length(a) + Length(b)
  {
    if b == [] {
      assert a + b == a;
    } else {
      assert (a + b)[..|a + b| - 1] == a + b[..|b| - 1];
      LengthJoins(a, b[..|b| - 1]);
    }
  }

  lemma {:induction false} MirrorsLength(stripes: seq<Stripe>, delta: nat, take: nat)
    ensures Length(Mirrors(stripes, delta, take)) == |stripes| * take
  {
    if stripes != [] {
      var m := Mirrors(stripes, delta, take);
      assert m[..|m| - 1] == Mirrors(stripes[..|stripes| - 1], delta, take);
      MirrorsLength(stripes[..|stripes| - 1], delta, take);
    }
  }

  /** Local copies of the bytes [from, from + n). */
  function Copies(chunks: seq<Chunk>, devid: u64, from: nat, n: nat): nat {
    if n == 0 then 0
    else
      Copies(chunks, devid, from, n - 1)
      + (match Find(chunks, from + n - 1) case None => 0 case Some(i) => |Locals(chunks[i].stripes, devid)|)
  }

  lemma {:induction false} CopiesJoin(chunks: seq<Chunk>, devid: u64, from: nat, n: nat, m: nat)
    ensures Copies(chunks, devid, from, n + m) == Copies(chunks, devid, from, n) + Copies(chunks, devid, from + n, m)
  {
    if m > 0 {
      CopiesJoin(chunks, devid, from, n, m - 1);
    }
  }

  lemma {:induction false} CopiesInChunk(chunks: seq<Chunk>, devid: u64, size: u64, i: nat, cursor: nat, take: nat)
    requires Prepared(chunks, devid, size) && i < |chunks|
    requires chunks[i].logical <= cursor && cursor + take <= chunks[i].logical + chunks[i].length
    ensures Copies(chunks, devid, cursor, take) == |Locals(chunks[i].stripes, devid)| * take
  {
    hide Prepared, Find, Locals;
    if take > 0 {
      CopiesInChunk(chunks, devid, size, i, cursor, take - 1);
      FindUnique(chunks, devid, size, cursor + take - 1, i);
    }
  }

  /** The pieces are as long together as all local copies of the extent's bytes, each piece once per mirror. */
  lemma {:induction false} PiecesLength(chunks: seq<Chunk>, devid: u64, size: u64, cursor: nat, remaining: nat)
    requires Prepared(chunks, devid, size) && Pieces(chunks, devid, cursor, remaining).Some?
    ensures Length(Pieces(chunks, devid, cursor, remaining).value) == Copies(chunks, devid, cursor, remaining)
    decreases remaining
  {
    hide Prepared, Find, Locals, Mirrors, Length, Copies;
    if remaining == 0 {
      NoLength(chunks, devid, cursor);
    }
    if remaining > 0 {
      var i := Find(chunks, cursor).value;
      var delta := cursor - chunks[i].logical;
      var take := Smaller(remaining, chunks[i].length - delta);
      PiecesLength(chunks, devid, size, cursor + take, remaining - take);
      MirrorsLength(Locals(chunks[i].stripes, devid), delta, take);
      CopiesInChunk(chunks, devid, size, i, cursor, take);
      CopiesJoin(chunks, devid, cursor, take, remaining - take);
      LengthJoins(Mirrors(Locals(chunks[i].stripes, devid), delta, take),
          Pieces(chunks, devid, cursor + take, remaining - take).value);
    }
  }

  lemma NoLength(chunks: seq<Chunk>, devid: u64, cursor: nat)
    ensures Length([]) == 0 == Copies(chunks, devid, cursor, 0)
  {
  }
}
