/** Tree blocks as they are laid out on the device, and that they read back: a leaf with its item table in front of the
    items' data, an inner block with its key pointers. */
module BtrfsLeaf {
  import opened Wrappers
  import opened Bytes
  import opened BtrfsSet
  import opened BtrfsMap
  import opened BtrfsTree
  import opened BtrfsNode

  // ---- fields -----------------------------------------------------------------------------------

  function Le4(v: nat): (r: seq<byte>)
    requires v < U32_LIMIT
    ensures |r| == 4 && U32(r, 0) == v
  {
    LeBytesSum(v);
    [LeByte(v, 0), LeByte(v, 1), LeByte(v, 2), LeByte(v, 3)]
  }

  function Le8(v: nat): (r: seq<byte>)
    requires v < U64_LIMIT
    ensures |r| == 8 && U64(r, 0) == v
  {
    hide LeByte;
    var low, high := Le4(v % U32_LIMIT), Le4(v / U32_LIMIT);
    FieldAt(low + high, 0);
    FieldAt(low + high, 4);
    assert (low + high)[0..4] == low && (low + high)[4..8] == high;
    low + high
  }

  /** A field depends on its own bytes only. */
  lemma FieldAt(raw: seq<byte>, pos: nat)
    ensures pos + 4 <= |raw| ==> U32(raw, pos) == U32(raw[pos..pos + 4], 0)
    ensures pos + 8 <= |raw| ==> U64(raw, pos) == U64(raw[pos..pos + 8], 0)
  {
  }

  predicate KeyFits(k: Key) {
    k.objectid < U64_LIMIT && k.kind < 256 && k.offset < U64_LIMIT
  }

  function KeyBytes(k: Key): (r: seq<byte>)
    requires KeyFits(k)
    ensures |r| == 17
  {
    Le8(k.objectid) + [k.kind] + Le8(k.offset)
  }

  lemma KeyReads(raw: seq<byte>, pos: nat, k: Key)
    requires KeyFits(k) && pos + 17 <= |raw| && raw[pos..pos + 17] == KeyBytes(k)
    ensures KeyAt(raw, pos) == k
  {
    hide U64, Le8;
    var b := raw[pos..pos + 17];
    assert raw[pos..pos + 8] == b[..8] == Le8(k.objectid);
    assert raw[pos + 8] == b[8] == k.kind;
    assert raw[pos + 9..pos + 17] == b[9..] == Le8(k.offset);
    FieldAt(raw, pos);
    FieldAt(raw, pos + 9);
  }

  // ---- tables -----------------------------------------------------------------------------------

  function Flat(rows: seq<seq<byte>>): seq<byte> {
    if rows == [] then [] else rows[0] + Flat(rows[1..])
  }

  /** The length of the rows in front of row i. */
  function Before(rows: seq<seq<byte>>, i: nat): nat
    requires i <= |rows|
  {
    if i == 0 then 0 else |rows[0]| + Before(rows[1..], i - 1)
  }

  lemma {:induction false} RowIs(rows: seq<seq<byte>>, i: nat)
    requires i < |rows|
    ensures Before(rows, i) + |rows[i]| <= |Flat(rows)|
    ensures Flat(rows)[Before(rows, i)..Before(rows, i) + |rows[i]|] == rows[i]
  {
    if i > 0 {
      RowIs(rows[1..], i - 1);
      var at, rest := Before(rows[1..], i - 1), Flat(rows[1..]);
      Middle(rows[0], rest, [], at, at + |rows[i]|);
      assert rows[0] + rest + [] == Flat(rows);
    }
  }

  lemma Middle(a: seq<byte>, b: seq<byte>, c: seq<byte>, i: nat, j: nat)
    requires i <= j <= |b|
    ensures (a + b + c)[|a| + i..|a| + j] == b[i..j]
  {
  }

  lemma {:induction false} EvenRows(rows: seq<seq<byte>>, width: nat, i: nat)
    requires i <= |rows| && forall k | 0 <= k < |rows| :: |rows[k]| == width
    ensures Before(rows, i) == i * width && |Flat(rows)| == |rows| * width
  {
    if rows != [] {
      EvenRows(rows[1..], width, if i == 0 then 0 else i - 1);
      assert |rows| * width == (|rows| - 1) * width + width;
      assert i * width == (i - 1) * width + width;
    }
  }

  /** The header of a block of so many entries; the rest of it is anything. */
  predicate HeaderOf(header: seq<byte>, logical: u64, level: nat, n: nat) {
    |header| == HEADER && U64(header, 48) == logical && header[100] == level && U32(header, 96) == n
  }

  lemma HeaderReads(raw: seq<byte>, header: seq<byte>)
    requires |header| == HEADER <= |raw| && raw[..HEADER] == header
    ensures U64(raw, 48) == U64(header, 48) && U32(raw, 96) == U32(header, 96) && raw[100] == header[100]
  {
    assert forall k | 0 <= k < HEADER :: raw[k] == raw[..HEADER][k];
  }

  // ---- leaves -----------------------------------------------------------------------------------

  function EntryBytes(item: Item, relative: nat): (r: seq<byte>)
    requires KeyFits(item.key) && relative < U32_LIMIT && |item.data| < U32_LIMIT
    ensures |r| == ITEM_SIZE
  {
    KeyBytes(item.key) + Le4(relative) + Le4(|item.data|)
  }

  lemma EntryReads(raw: seq<byte>, pos: nat, item: Item, relative: nat)
    requires KeyFits(item.key) && relative < U32_LIMIT && |item.data| < U32_LIMIT
    requires pos + ITEM_SIZE <= |raw| && raw[pos..pos + ITEM_SIZE] == EntryBytes(item, relative)
    ensures KeyAt(raw, pos) == item.key && U32(raw, pos + 17) == relative && U32(raw, pos + 21) == |item.data|
  {
    hide U32, Le4, KeyAt, KeyBytes;
    var b := raw[pos..pos + ITEM_SIZE];
    assert raw[pos..pos + 17] == b[..17] == KeyBytes(item.key);
    KeyReads(raw, pos, item.key);
    assert raw[pos + 17..pos + 21] == b[17..21] == Le4(relative);
    assert raw[pos + 21..pos + 25] == b[21..25] == Le4(|item.data|);
    FieldAt(raw, pos + 17);
    FieldAt(raw, pos + 21);
  }

  function Data(items: seq<Item>): (r: seq<seq<byte>>)
    ensures |r| == |items|
  {
    seq(|items|, i requires 0 <= i < |items| => items[i].data)
  }

  predicate LeafFits(items: seq<Item>) {
    && ITEM_SIZE * |items| + |Flat(Data(items))| < U32_LIMIT
    && forall i | 0 <= i < |items| :: KeyFits(items[i].key)
  }

  /** The item table: every item's data stands behind that of the items before it, and the first behind the table. */
  function Entries(items: seq<Item>): (r: seq<seq<byte>>)
    requires LeafFits(items)
    ensures |r| == |items| && forall i | 0 <= i < |r| :: |r[i]| == ITEM_SIZE
  {
    seq(|items|, i requires 0 <= i < |items| =>
      RowIs(Data(items), i);
      EntryBytes(items[i], ITEM_SIZE * |items| + Before(Data(items), i)))
  }

  /** A leaf: header, item table, the items' data one after another, and what is left of the block. */
  function LeafBytes(header: seq<byte>, items: seq<Item>, tail: seq<byte>): seq<byte>
    requires LeafFits(items)
  {
    header + Flat(Entries(items)) + (Flat(Data(items)) + tail)
  }

  lemma LeafSize(header: seq<byte>, items: seq<Item>, tail: seq<byte>)
    requires LeafFits(items)
    ensures |Flat(Entries(items))| == |items| * ITEM_SIZE
    ensures |LeafBytes(header, items, tail)| >= |header| + |items| * ITEM_SIZE
    ensures LeafBytes(header, items, tail)[..|header|] == header
  {
    hide Entries, Data;
    EvenRows(Entries(items), ITEM_SIZE, 0);
  }

  lemma ItemReads(header: seq<byte>, items: seq<Item>, tail: seq<byte>, i: nat)
    requires |header| == HEADER && LeafFits(items) && i < |items|
    ensures |LeafBytes(header, items, tail)| >= HEADER + |items| * ITEM_SIZE
    ensures ItemAt(LeafBytes(header, items, tail), |items|, i) == Some(items[i])
  {
    hide Flat, Before, EntryBytes, KeyAt, U32;
    var table, data := Flat(Entries(items)), Flat(Data(items));
    LeafSize(header, items, tail);
    EvenRows(Entries(items), ITEM_SIZE, i);
    RowIs(Entries(items), i);
    RowIs(Data(items), i);
    var at, size := Before(Data(items), i), |items[i].data|;
    Middle(header, table, data + tail, i * ITEM_SIZE, i * ITEM_SIZE + ITEM_SIZE);
    Middle(header + table, data, tail, at, at + size);
    assert header + table + data + tail == header + table + (data + tail);
    EntryReads(LeafBytes(header, items, tail), HEADER + i * ITEM_SIZE, items[i], ITEM_SIZE * |items| + at);
  }

  lemma {:induction false} ItemsRead(header: seq<byte>, items: seq<Item>, tail: seq<byte>, k: nat)
    requires |header| == HEADER && LeafFits(items) && k <= |items|
    ensures |LeafBytes(header, items, tail)| >= HEADER + |items| * ITEM_SIZE
    ensures ItemsUpTo(LeafBytes(header, items, tail), |items|, k) == Some(items[..k])
  {
    hide LeafBytes, ItemAt;
    LeafSize(header, items, tail);
    if k > 0 {
      ItemsRead(header, items, tail, k - 1);
      ItemReads(header, items, tail, k - 1);
      assert items[..k] == items[..k - 1] + [items[k - 1]];
    }
  }

  /** A leaf laid out so reads as its items. */
  lemma LeafReadsBack(header: seq<byte>, logical: u64, items: seq<Item>, tail: seq<byte>)
    requires LeafFits(items) && HeaderOf(header, logical, 0, |items|)
    ensures |LeafBytes(header, items, tail)| >= HEADER
    ensures NodeAt(LeafBytes(header, items, tail), logical, 0) == Some(Leaf(items))
  {
    hide LeafBytes, ItemsUpTo, U32, U64;
    LeafSize(header, items, tail);
    HeaderReads(LeafBytes(header, items, tail), header);
    ItemsRead(header, items, tail, |items|);
    assert items[..|items|] == items;
  }

  // ---- inner blocks -----------------------------------------------------------------------------

  datatype Pointer = Pointer(key: Key, child: u64, generation: u64)

  function PointerBytes(p: Pointer): (r: seq<byte>)
    requires KeyFits(p.key)
    ensures |r| == KEY_PTR_SIZE
  {
    KeyBytes(p.key) + Le8(p.child) + Le8(p.generation)
  }

  predicate PointersFit(ps: seq<Pointer>) {
    forall i | 0 <= i < |ps| :: KeyFits(ps[i].key)
  }

  function Pointers(ps: seq<Pointer>): (r: seq<seq<byte>>)
    requires PointersFit(ps)
    ensures |r| == |ps| && forall i | 0 <= i < |r| :: |r[i]| == KEY_PTR_SIZE
  {
    seq(|ps|, i requires 0 <= i < |ps| => PointerBytes(ps[i]))
  }

  function InnerBytes(header: seq<byte>, ps: seq<Pointer>, tail: seq<byte>): (r: seq<byte>)
    requires PointersFit(ps)
    ensures |r| >= |header| + |ps| * KEY_PTR_SIZE && r[..|header|] == header
  {
    hide Pointers;
    EvenRows(Pointers(ps), KEY_PTR_SIZE, 0);
    header + Flat(Pointers(ps)) + tail
  }

  function Children(ps: seq<Pointer>): seq<u64> {
    seq(|ps|, i requires 0 <= i < |ps| => ps[i].child)
  }

  lemma ChildReads(header: seq<byte>, ps: seq<Pointer>, tail: seq<byte>, i: nat)
    requires |header| == HEADER && PointersFit(ps) && i < |ps|
    ensures ChildAt(InnerBytes(header, ps, tail), i) == ps[i].child
  {
    hide Flat, Before, U64, Le8, KeyBytes;
    var raw, table, pos := InnerBytes(header, ps, tail), Flat(Pointers(ps)), HEADER + i * KEY_PTR_SIZE;
    EvenRows(Pointers(ps), KEY_PTR_SIZE, i);
    RowIs(Pointers(ps), i);
    Middle(header, table, tail, i * KEY_PTR_SIZE, i * KEY_PTR_SIZE + KEY_PTR_SIZE);
    var row := raw[pos..pos + KEY_PTR_SIZE];
    assert row == PointerBytes(ps[i]);
    assert raw[pos + 17..pos + 25] == row[17..25] == Le8(ps[i].child);
    FieldAt(raw, pos + 17);
  }

  /** An inner block laid out so reads as its children, and is refused when one of them is zero. */
  lemma InnerReadsBack(header: seq<byte>, logical: u64, level: nat, ps: seq<Pointer>, tail: seq<byte>)
    requires PointersFit(ps) && 1 <= level <= MAX_LEVEL && HeaderOf(header, logical, level, |ps|)
    ensures NodeAt(InnerBytes(header, ps, tail), logical, level)
            == if NonZero(Children(ps)) then Some(Inner(Children(ps))) else None
  {
    hide InnerBytes, ChildAt, U64, U32;
    var raw := InnerBytes(header, ps, tail);
    HeaderReads(raw, header);
    forall i | 0 <= i < |ps| ensures ChildrenUpTo(raw, |ps|)[i] == Children(ps)[i] {
      ChildReads(header, ps, tail, i);
    }
    assert ChildrenUpTo(raw, |ps|) == Children(ps);
  }

  // ---- where a block is stored ------------------------------------------------------------------

  /** Stripe j of chunk i is the chunk's first one on this device; the chunk has all of the block's addresses; and the
      stripe holds these bytes for them. */
  predicate BlockAt(pool: Pool, logical: u64, i: nat, j: nat, raw: seq<byte>) {
    && pool.nodeSize > 0 && logical % pool.nodeSize == 0 && i < |pool.chunks| && j < |pool.chunks[i].stripes|
    && var c := pool.chunks[i];
       && c.logical <= logical < c.logical + c.length && logical + pool.nodeSize <= c.logical + c.length
       && c.stripes[j].devid == pool.devid && (forall k | 0 <= k < j :: c.stripes[k].devid != pool.devid)
       && var p := c.stripes[j].physical + (logical - c.logical);
          p + pool.nodeSize <= |pool.image| && pool.image[p..p + pool.nodeSize] == raw
  }

  lemma {:induction false} NoneBefore(stripes: seq<Stripe>, devid: u64, j: nat)
    requires j <= |stripes| && forall k | 0 <= k < j :: stripes[k].devid != devid
    ensures Locals(stripes[..j], devid) == []
  {
    if j > 0 {
      NoneBefore(stripes, devid, j - 1);
      assert stripes[..j][..j - 1] == stripes[..j - 1];
    }
  }

  lemma FirstOf(stripes: seq<Stripe>, devid: u64) returns (j: nat)
    requires Locals(stripes, devid) != []
    ensures j < |stripes| && stripes[j].devid == devid && forall k | 0 <= k < j :: stripes[k].devid != devid
  {
    hide Locals;
    var s := Locals(stripes, devid)[0];
    assert s in Locals(stripes, devid);
    j := 0;
    while stripes[j].devid != devid
      invariant j < |stripes| && forall k | 0 <= k < j :: stripes[k].devid != devid
      decreases |stripes| - j
    {
      assert exists k :: j < k < |stripes| && stripes[k] == s;
      j := j + 1;
    }
  }

  /** A block has these bytes if and only if they are stored for its address. */
  lemma BlockExactly(pool: Pool, logical: u64, raw: seq<byte>)
    requires PoolOk(pool)
    ensures BlockBytes(pool, logical) == Some(raw) <==> exists i: nat, j: nat :: BlockAt(pool, logical, i, j, raw)
  {
    hide Find, Locals;
    if i: nat, j: nat :| BlockAt(pool, logical, i, j, raw) {
      var c := pool.chunks[i];
      FindUnique(pool.chunks, pool.devid, |pool.image|, logical, i);
      NoneBefore(c.stripes, pool.devid, j);
      FirstLocal(c.stripes, pool.devid, j);
    }
    if BlockBytes(pool, logical) == Some(raw) {
      var i := Find(pool.chunks, logical).value;
      var j := FirstOf(pool.chunks[i].stripes, pool.devid);
      NoneBefore(pool.chunks[i].stripes, pool.devid, j);
      FirstLocal(pool.chunks[i].stripes, pool.devid, j);
      assert BlockAt(pool, logical, i, j, raw);
    }
  }

  /** So a leaf stored for its address is read as its items, */
  lemma StoredLeafReads(pool: Pool, logical: u64, header: seq<byte>, items: seq<Item>, tail: seq<byte>, i: nat, j: nat)
    requires PoolOk(pool) && LeafFits(items) && HeaderOf(header, logical, 0, |items|)
    requires BlockAt(pool, logical, i, j, LeafBytes(header, items, tail))
    ensures ReadBlock(pool, logical, 0) == Some(Leaf(items))
  {
    hide HeaderOf, LeafBytes, BlockAt, BlockBytes, NodeAt, LeafFits;
    LeafReadsBack(header, logical, items, tail);
    BlockExactly(pool, logical, LeafBytes(header, items, tail));
  }

  /** and an inner block as its children. */
  lemma StoredInnerReads(pool: Pool, logical: u64, header: seq<byte>, level: nat, ps: seq<Pointer>, tail: seq<byte>,
      i: nat, j: nat)
    requires PoolOk(pool) && PointersFit(ps) && 1 <= level <= MAX_LEVEL && HeaderOf(header, logical, level, |ps|)
    requires NonZero(Children(ps)) && BlockAt(pool, logical, i, j, InnerBytes(header, ps, tail))
    ensures ReadBlock(pool, logical, level) == Some(Inner(Children(ps)))
  {
    hide HeaderOf, InnerBytes, BlockAt, BlockBytes, NodeAt, PointersFit;
    InnerReadsBack(header, logical, level, ps, tail);
    BlockExactly(pool, logical, InnerBytes(header, ps, tail));
  }
}
