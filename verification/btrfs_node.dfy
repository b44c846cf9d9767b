/** Reading a Btrfs tree block: its address, its own header and level, and the bounds of all its items; and the walk
    over real blocks with the real set of visited ones. */
module BtrfsNode {
  import opened Wrappers
  import opened Bytes
  import opened BtrfsSet
  import opened BtrfsMap
  import opened BtrfsTree

  const HEADER := 101
  const ITEM_SIZE := 25
  const KEY_PTR_SIZE := 33
  const MAX_LEVEL := 8

  /** The device with its chunks, in the order preparation leaves them. */
  datatype Pool = Pool(image: seq<byte>, chunks: seq<Chunk>, devid: u64, nodeSize: nat)

  predicate PoolOk(pool: Pool) {
    pool.nodeSize >= HEADER && |pool.image| < U64_LIMIT && Prepared(pool.chunks, pool.devid, |pool.image|)
  }

  // ---- one block --------------------------------------------------------------------------------

  /** Where a tree block is stored on this device: on its first local stripe, and wholly inside its chunk. */
  function Physical(pool: Pool, logical: u64): Option<nat> {
    match Find(pool.chunks, logical)
    case None => None
    case Some(i) =>
      var c := pool.chunks[i];
      var delta := logical - c.logical;
      if pool.nodeSize > c.length - delta || Locals(c.stripes, pool.devid) == [] then None
      else Some(Locals(c.stripes, pool.devid)[0].physical + delta)
  }

  function KeyAt(raw: seq<byte>, pos: nat): Key
    requires pos + 17 <= |raw|
  {
    Key(U64(raw, pos), raw[pos + 8], U64(raw, pos + 9))
  }

  /** Item number i of a leaf with n items: its data must lie behind the item table and inside the block. */
  function ItemAt(raw: seq<byte>, n: nat, i: nat): (r: Option<Item>)
    requires i < n && HEADER + n * ITEM_SIZE <= |raw|
  {
    var pos := HEADER + i * ITEM_SIZE;
    var relative, size := U32(raw, pos + 17), U32(raw, pos + 21);
    if HEADER + relative > |raw| || relative < n * ITEM_SIZE || size > |raw| - (HEADER + relative) then None
    else Some(Item(KeyAt(raw, pos), raw[HEADER + relative..HEADER + relative + size]))
  }

  /** The first k items. */
  function ItemsUpTo(raw: seq<byte>, n: nat, k: nat): (r: Option<seq<Item>>)
    requires k <= n && HEADER + n * ITEM_SIZE <= |raw|
    ensures r.Some? ==> |r.value| == k
  {
    if k == 0 then Some([])
    else
      match ItemsUpTo(raw, n, k - 1)
      case None => None
      case Some(front) =>
        match ItemAt(raw, n, k - 1)
        case None => None
        case Some(item) => Some(front + [item])
  }

  function ChildAt(raw: seq<byte>, i: nat): u64
    requires HEADER + (i + 1) * KEY_PTR_SIZE <= |raw|
  {
    U64(raw, HEADER + i * KEY_PTR_SIZE + 17)
  }

  function ChildrenUpTo(raw: seq<byte>, n: nat): (r: seq<u64>)
    requires HEADER + n * KEY_PTR_SIZE <= |raw|
    ensures |r| == n
  {
    seq(n, i requires 0 <= i < n => ChildAt(raw, i))
  }

  predicate NonZero(children: seq<u64>) {
    forall i | 0 <= i < |children| :: children[i] != 0
  }

  /** A tree block read for an address and a level: it must name that address and that level as its own. */
  function NodeAt(raw: seq<byte>, logical: u64, level: nat): Option<Node>
    requires |raw| >= HEADER
  {
    var n := U32(raw, 96);
    if U64(raw, 48) != logical || raw[100] > MAX_LEVEL || raw[100] != level then None
    else if HEADER + n * (if level == 0 then ITEM_SIZE else KEY_PTR_SIZE) > |raw| then None
    else if level == 0 then
      match ItemsUpTo(raw, n, n)
      case None => None
      case Some(items) => Some(Leaf(items))
    else if !NonZero(ChildrenUpTo(raw, n)) then None
    else Some(Inner(ChildrenUpTo(raw, n)))
  }

  function BlockBytes(pool: Pool, logical: u64): (r: Option<seq<byte>>)
    requires pool.nodeSize >= HEADER
    ensures r.Some? ==> |r.value| == pool.nodeSize
  {
    if logical % pool.nodeSize != 0 then None
    else
      match Physical(pool, logical)
      case None => None
      case Some(p) => if p + pool.nodeSize > |pool.image| then None else Some(pool.image[p..p + pool.nodeSize])
  }

  function ReadBlock(pool: Pool, logical: u64, level: nat): Option<Node>
    requires pool.nodeSize >= HEADER
  {
    match BlockBytes(pool, logical)
    case None => None
    case Some(raw) => NodeAt(raw, logical, level)
  }

  function Reader(pool: Pool): (u64, nat) -> Option<Node>
    requires pool.nodeSize >= HEADER
  {
    (logical: u64, level: nat) => ReadBlock(pool, logical, level)
  }

  /** A block is accepted at the one level it stores. */
  lemma ReaderOneLevel(pool: Pool)
    requires pool.nodeSize >= HEADER
    ensures OneLevel(Reader(pool))
  {
    hide ItemsUpTo, ChildrenUpTo, BlockBytes;
    forall b, k, l: nat | Reader(pool)(b, k).Some? && Reader(pool)(b, l).Some? ensures k == l {
      assert ReadBlock(pool, b, k).Some? && ReadBlock(pool, b, l).Some?;
    }
  }

  // ---- the loops --------------------------------------------------------------------------------

  method ReadItems(raw: seq<byte>, n: nat, items: seq<Item>) returns (r: Option<seq<Item>>)
    requires HEADER + n * ITEM_SIZE <= |raw|
    ensures r == match ItemsUpTo(raw, n, n) case None => None case Some(more) => Some(items + more)
  {
    hide ItemAt;
    var out := items;
    for i := 0 to n
      invariant ItemsUpTo(raw, n, i).Some? && out == items + ItemsUpTo(raw, n, i).value
    {
      var item := ItemAt(raw, n, i);
      if item.None? {
        RefusedStays(raw, n, i + 1);
        return None;
      }
      out := out + [item.value];
    }
    r := Some(out);
  }

  lemma {:induction false} RefusedStays(raw: seq<byte>, n: nat, k: nat)
    requires k <= n && HEADER + n * ITEM_SIZE <= |raw| && ItemsUpTo(raw, n, k).None?
    ensures ItemsUpTo(raw, n, n).None?
    decreases n - k
  {
    hide ItemAt;
    if k < n {
      RefusedStays(raw, n, k + 1);
    }
  }

  /** Children are pushed from the last to the first, so that the first is visited next. */
  method PushChildren(raw: seq<byte>, n: nat, level: nat, stack: seq<Ref>) returns (r: Option<seq<Ref>>)
    requires HEADER + n * KEY_PTR_SIZE <= |raw|
    ensures var children := ChildrenUpTo(raw, n);
            r == if NonZero(children) then Some(stack + Backwards(Refs(children, level))) else None
  {
    hide U64;
    ghost var children := ChildrenUpTo(raw, n);
    ghost var pushed := Backwards(Refs(children, level));
    var out := stack;
    var reverse: nat := n;
    while reverse != 0
      invariant reverse <= n && out == stack + pushed[..n - reverse]
      invariant forall i | reverse <= i < n :: children[i] != 0
    {
      var index: nat := reverse - 1;
      EntryInside(index, n, |raw|);
      var child := ChildAt(raw, index);
      assert child == children[index];
      if child == 0 {
        return None;
      }
      assert pushed[n - reverse] == Ref(child, Below(level));
      out := out + [Ref(child, Below(level))];
      reverse := reverse - 1;
    }
    assert pushed[..n] == pushed;
    r := Some(out);
  }

  lemma EntryInside(i: nat, n: nat, size: nat)
    requires i < n && HEADER + n * KEY_PTR_SIZE <= size
    ensures HEADER + (i + 1) * KEY_PTR_SIZE <= size
  {
  }

  method MapperReadPhysical(pool: Pool, logical: u64) returns (r: Option<nat>)
    requires PoolOk(pool)
    ensures r == Physical(pool, logical)
  {
    hide Prepared, Locals, ChunkOk;
    var found := MapperFind(pool.chunks, pool.devid, |pool.image|, logical);
    if found.None? {
      return None;
    }
    var chunk := pool.chunks[found.value];
    var delta := logical - chunk.logical;
    if pool.nodeSize > chunk.length - delta {
      return None;
    }
    NoLocals(pool.devid);
    for i := 0 to |chunk.stripes|
      invariant Locals(chunk.stripes[..i], pool.devid) == []
    {
      if chunk.stripes[i].devid == pool.devid {
        FirstLocal(chunk.stripes, pool.devid, i);
        return Some(chunk.stripes[i].physical + delta);
      }
      LocalsNext(chunk.stripes, pool.devid, i);
    }
    assert chunk.stripes[..|chunk.stripes|] == chunk.stripes;
    r := None;
  }

  lemma {:induction false} FirstLocal(stripes: seq<Stripe>, devid: u64, i: nat)
    requires i < |stripes| && Local(stripes[i], devid) && Locals(stripes[..i], devid) == []
    ensures Locals(stripes, devid) != [] && Locals(stripes, devid)[0] == stripes[i]
  {
    if i < |stripes| - 1 {
      assert stripes[..|stripes| - 1][..i] == stripes[..i];
      FirstLocal(stripes[..|stripes| - 1], devid, i);
    }
  }

  /** The block behind a reference: its bytes, if it is aligned, mapped and on the device. */
  method ReadBytes(pool: Pool, logical: u64) returns (r: Option<seq<byte>>)
    requires PoolOk(pool)
    ensures r == BlockBytes(pool, logical)
  {
    hide Physical, Prepared;
    if logical % pool.nodeSize != 0 {
      return None;
    }
    var physical := MapperReadPhysical(pool, logical);
    if physical.None? || physical.value > |pool.image| || pool.nodeSize > |pool.image| - physical.value {
      return None;
    }
    r := Some(pool.image[physical.value..physical.value + pool.nodeSize]);
  }

  /** One visit: the checks on the block, then its items or its children. */
  method VisitBlock(pool: Pool, cur: Ref, out: Walked, stack: seq<Ref>) returns (r: Option<(Walked, seq<Ref>)>)
    requires PoolOk(pool)
    ensures r == match ReadBlock(pool, cur.logical, cur.level)
                 case None => None
                 case Some(node) => Some((Extend(out, cur.logical, node), stack + Pushed(node, cur.level)))
  {
    hide Prepared, BlockBytes, ItemsUpTo, ChildrenUpTo, U64, U32;
    var read := ReadBytes(pool, cur.logical);
    if read.None? {
      return None;
    }
    var raw := read.value;
    if U64(raw, 48) != cur.logical {
      return None;
    }
    var level := raw[100];
    if level > MAX_LEVEL || level != cur.level {
      return None;
    }
    var n := U32(raw, 96);
    var element := if level == 0 then ITEM_SIZE else KEY_PTR_SIZE;
    if HEADER + n * element > |raw| {
      return None;
    }
    var blocks := out.blocks + [cur.logical];
    if level == 0 {
      var items := ReadItems(raw, n, out.items);
      if items.None? {
        return None;
      }
      assert stack + [] == stack;
      r := Some((Walked(items.value, blocks), stack));
    } else {
      var pushed := PushChildren(raw, n, level, stack);
      if pushed.None? {
        return None;
      }
      assert out.items + [] == out.items;
      r := Some((Walked(out.items, blocks), pushed.value));
    }
  }

  /** The walk: a stack, and the set of visited blocks; every block read is logged. */
  method TreeWalk(pool: Pool, root: u64, rootLevel: nat) returns (r: Option<Walked>, ghost log: seq<u64>)
    requires PoolOk(pool)
    ensures r == Walk(Reader(pool), [Ref(root, rootLevel)], {}, Walked([], []))
    ensures log == Reads(Reader(pool), [Ref(root, rootLevel)], {})
  {
    hide Prepared, ReadBlock, Pushed, Extend, Walk, Reads;
    var visited := new U64Set();
    var stack := [Ref(root, rootLevel)];
    var out := Walked([], []);
    ghost var read := Reader(pool);
    log := [];
    while stack != []
      invariant visited.Valid() && fresh(visited) && fresh(visited.slots)
      invariant visited.count == |visited.Contents()| <= MAX_BLOCKS
      invariant Walk(read, stack, visited.Contents(), out) == Walk(read, [Ref(root, rootLevel)], {}, Walked([], []))
      invariant log + Reads(read, stack, visited.Contents()) == Reads(read, [Ref(root, rootLevel)], {})
      decreases MAX_BLOCKS - |visited.Contents()|, |stack|
    {
      var current := stack[|stack| - 1];
      ghost var whole, before, was := stack, visited.Contents(), out;
      stack := stack[..|stack| - 1];
      var inserted := visited.Insert(current.logical);
      if inserted.Err? {
        WalkRefused(read, whole, before, was, log);
        return None, log;
      }
      if inserted.value {
        if visited.count > MAX_BLOCKS {
          WalkRefused(read, whole, before, was, log);
          return None, log;
        }
        WalkStep(read, whole, before, was, log);
        log := log + [current.logical];
        var next := VisitBlock(pool, current, out, stack);
        if next.None? {
          return None, log;
        }
        out, stack := next.value.0, next.value.1;
      } else {
        assert before + {current.logical} == before;
        WalkSkips(read, whole, before, was);
      }
    }
    WalkEnds(read, visited.Contents(), out, log);
    r := Some(out);
  }

  lemma WalkEnds(read: (u64, nat) -> Option<Node>, visited: set<u64>, out: Walked, log: seq<u64>)
    requires |visited| <= MAX_BLOCKS
    ensures Walk(read, [], visited, out) == Some(out) && log + Reads(read, [], visited) == log
  {
  }

  /** A visited block is passed over. */
  lemma WalkSkips(read: (u64, nat) -> Option<Node>, stack: seq<Ref>, visited: set<u64>, out: Walked)
    requires stack != [] && |visited| <= MAX_BLOCKS && stack[|stack| - 1].logical != 0
             && stack[|stack| - 1].logical in visited
    ensures Walk(read, stack, visited, out) == Walk(read, stack[..|stack| - 1], visited, out)
    ensures Reads(read, stack, visited) == Reads(read, stack[..|stack| - 1], visited)
  {
  }

  /** A zero address, or one block too many, ends the walk before anything is read. */
  lemma WalkRefused(read: (u64, nat) -> Option<Node>, stack: seq<Ref>, visited: set<u64>, out: Walked, log: seq<u64>)
    requires stack != [] && |visited| <= MAX_BLOCKS
    requires var cur := stack[|stack| - 1];
             cur.logical == 0 || (cur.logical !in visited && |visited + {cur.logical}| > MAX_BLOCKS)
    ensures Walk(read, stack, visited, out).None? && Reads(read, stack, visited) == [] && log + [] == log
  {
  }

  /** A new block is read once, and the walk goes on with what it holds. */
  lemma WalkStep(read: (u64, nat) -> Option<Node>, stack: seq<Ref>, visited: set<u64>, out: Walked, log: seq<u64>)
    requires stack != [] && |visited| <= MAX_BLOCKS
    requires var cur := stack[|stack| - 1];
             cur.logical != 0 && cur.logical !in visited && |visited + {cur.logical}| <= MAX_BLOCKS
    ensures var cur := stack[|stack| - 1]; var rest := stack[..|stack| - 1];
            match read(cur.logical, cur.level)
            case None => Walk(read, stack, visited, out).None?
                && log + Reads(read, stack, visited) == log + [cur.logical]
            case Some(node) =>
              var more := rest + Pushed(node, cur.level);
              && Walk(read, stack, visited, out)
                 == Walk(read, more, visited + {cur.logical}, Extend(out, cur.logical, node))
              && log + Reads(read, stack, visited) == log + [cur.logical] + Reads(read, more, visited + {cur.logical})
  {
    hide Pushed, Extend;
  }

  // ---- what the walk over real blocks guarantees ------------------------------------------------

  /** On every image the walk ends; it reads no block twice; and when it succeeds it has read exactly the blocks
      reached from the root. */
  lemma TreeWalkExact(pool: Pool, root: u64, rootLevel: nat)
    requires PoolOk(pool)
    ensures Distinct(Reads(Reader(pool), [Ref(root, rootLevel)], {}))
    ensures var r := Walk(Reader(pool), [Ref(root, rootLevel)], {}, Walked([], []));
            r.Some? ==> Distinct(r.value.blocks)
                        && forall b :: b in r.value.blocks <==> BlockReached(Reader(pool), Ref(root, rootLevel), b)
  {
    ReaderOneLevel(pool);
    NeverReadsTwice(Reader(pool), [Ref(root, rootLevel)], {});
    if Walk(Reader(pool), [Ref(root, rootLevel)], {}, Walked([], [])).Some? {
      WalkReads(Reader(pool), Ref(root, rootLevel));
    }
  }

  /** On an image that stores a genuine tree of distinct blocks within the limit, the walk emits the leaf items from
      left to right. */
  lemma TreeWalkInOrder(pool: Pool, t: Tree, level: nat)
    requires PoolOk(pool) && Stores(Reader(pool), t, level)
    requires Distinct(BlocksOf(t)) && |SetOf(BlocksOf(t))| <= MAX_BLOCKS
    ensures Walk(Reader(pool), [Ref(t.logical, level)], {}, Walked([], [])) == Some(Walked(ItemsOf(t), BlocksOf(t)))
  {
    WalkInOrder(Reader(pool), t, level);
  }
}
