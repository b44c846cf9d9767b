/** The Btrfs tree walk: an explicit stack, a set of visited blocks, items in key order. */
module BtrfsTree {
  import opened Wrappers
  import opened Bytes
  import opened BtrfsSet

  const MAX_BLOCKS := 8_000_000

  datatype Key = Key(objectid: nat, kind: nat, offset: nat)

  datatype Item = Item(key: Key, data: seq<byte>)

  datatype Node = Leaf(items: seq<Item>) | Inner(children: seq<u64>)

  datatype Ref = Ref(logical: u64, level: nat)

  /** What the walk has collected: leaf items, and the blocks read. */
  datatype Walked = Walked(items: seq<Item>, blocks: seq<u64>)

  /** One step down, in 8-bit arithmetic. */
  function Below(level: nat): nat {
    (level + 255) % 256
  }

  function Refs(children: seq<u64>, level: nat): (r: seq<Ref>)
    ensures |r| == |children| && forall i | 0 <= i < |r| :: r[i] == Ref(children[i], Below(level))
  {
    seq(|children|, i requires 0 <= i < |children| => Ref(children[i], Below(level)))
  }

  function Backwards(refs: seq<Ref>): (r: seq<Ref>)
    ensures |r| == |refs| && forall i | 0 <= i < |r| :: r[i] == refs[|refs| - 1 - i]
  {
    seq(|refs|, i requires 0 <= i < |refs| => refs[|refs| - 1 - i])
  }

  /** What a reference that has not been visited before leads to: nothing, when it is refused. */
  function Visit(read: (u64, nat) -> Option<Node>, visited: set<u64>, cur: Ref): Option<Node> {
    if cur.logical == 0 || |visited + {cur.logical}| > MAX_BLOCKS then None else read(cur.logical, cur.level)
  }

  function Pushed(node: Node, level: nat): seq<Ref> {
    match node
    case Leaf(_) => []
    case Inner(children) => Backwards(Refs(children, level))
  }

  function Extend(out: Walked, logical: u64, node: Node): Walked {
    Walked(out.items + (match node case Leaf(items) => items case Inner(_) => []), out.blocks + [logical])
  }

  /** The walk from a stack; None when a block is refused. It ends on every pointer graph: each step either takes a
      reference off the stack or makes one more of at most MAX_BLOCKS blocks visited. */
  function Walk(read: (u64, nat) -> Option<Node>, stack: seq<Ref>, visited: set<u64>, out: Walked): Option<Walked>
    requires |visited| <= MAX_BLOCKS
    decreases MAX_BLOCKS - |visited|, |stack|
  {
    if stack == [] then Some(out)
    else
      var cur, rest := stack[|stack| - 1], stack[..|stack| - 1];
      if cur.logical != 0 && cur.logical in visited then Walk(read, rest, visited, out)
      else
        match Visit(read, visited, cur)
        case None => None
        case Some(node) =>
          Walk(read, rest + Pushed(node, cur.level), visited + {cur.logical}, Extend(out, cur.logical, node))
  }

  // ---- each block once, and exactly the reachable ones ------------------------------------------

  predicate Distinct(s: seq<u64>) {
    forall i, j | 0 <= i < j < |s| :: s[i] != s[j]
  }

  /** The blocks collected are the visited ones. */
  ghost predicate Tracks(visited: set<u64>, blocks: seq<u64>) {
    Distinct(blocks) && forall b :: b in blocks <==> b in visited
  }

  lemma TracksMore(visited: set<u64>, blocks: seq<u64>, b: u64)
    requires Tracks(visited, blocks) && b !in visited
    ensures Tracks(visited + {b}, blocks + [b])
  {
  }

  /** No block is read twice: the blocks of a successful walk are distinct. */
  lemma {:induction false} ReadsOnce(read: (u64, nat) -> Option<Node>, stack: seq<Ref>, visited: set<u64>, out: Walked)
    requires |visited| <= MAX_BLOCKS && Tracks(visited, out.blocks) && Walk(read, stack, visited, out).Some?
    ensures Distinct(Walk(read, stack, visited, out).value.blocks)
    ensures out.blocks <= Walk(read, stack, visited, out).value.blocks
    decreases MAX_BLOCKS - |visited|, |stack|
  {
    if stack != [] {
      var cur, rest := stack[|stack| - 1], stack[..|stack| - 1];
      if cur.logical in visited {
        ReadsOnce(read, rest, visited, out);
      } else {
        var node := Visit(read, visited, cur).value;
        TracksMore(visited, out.blocks, cur.logical);
        ReadsOnce(read, rest + Pushed(node, cur.level), visited + {cur.logical}, Extend(out, cur.logical, node));
      }
    }
  }

  /** The blocks read by a walk, a refused one included, in order. */
  function Reads(read: (u64, nat) -> Option<Node>, stack: seq<Ref>, visited: set<u64>): seq<u64>
    requires |visited| <= MAX_BLOCKS
    decreases MAX_BLOCKS - |visited|, |stack|
  {
    if stack == [] then []
    else
      var cur, rest := stack[|stack| - 1], stack[..|stack| - 1];
      if cur.logical != 0 && cur.logical in visited then Reads(read, rest, visited)
      else if cur.logical == 0 || |visited + {cur.logical}| > MAX_BLOCKS then []
      else
        match read(cur.logical, cur.level)
        case None => [cur.logical]
        case Some(node) => [cur.logical] + Reads(read, rest + Pushed(node, cur.level), visited + {cur.logical})
  }

  /** Successful or refused, a walk reads no block twice. */
  lemma {:induction false} NeverReadsTwice(read: (u64, nat) -> Option<Node>, stack: seq<Ref>, visited: set<u64>)
    requires |visited| <= MAX_BLOCKS
    ensures Distinct(Reads(read, stack, visited)) && forall b | b in Reads(read, stack, visited) :: b !in visited
    decreases MAX_BLOCKS - |visited|, |stack|
  {
    hide Pushed;
    if stack != [] {
      var cur, rest := stack[|stack| - 1], stack[..|stack| - 1];
      if cur.logical != 0 && cur.logical in visited {
        NeverReadsTwice(read, rest, visited);
      } else if cur.logical != 0 && |visited + {cur.logical}| <= MAX_BLOCKS && read(cur.logical, cur.level).Some? {
        var node := read(cur.logical, cur.level).value;
        NeverReadsTwice(read, rest + Pushed(node, cur.level), visited + {cur.logical});
        FirstDistinct(cur.logical, Reads(read, rest + Pushed(node, cur.level), visited + {cur.logical}));
      }
    }
  }

  lemma FirstDistinct(b: u64, rest: seq<u64>)
    requires Distinct(rest) && b !in rest
    ensures Distinct([b] + rest)
  {
  }

  /** A path of references from the root, each a child of the one before. */
  ghost predicate Path(read: (u64, nat) -> Option<Node>, root: Ref, path: seq<Ref>) {
    && path != [] && path[0] == root
    && forall i | 0 < i < |path| :: Child(read, path[i - 1], path[i])
  }

  ghost predicate Child(read: (u64, nat) -> Option<Node>, parent: Ref, child: Ref) {
    var node := read(parent.logical, parent.level);
    node.Some? && node.value.Inner? && child in Refs(node.value.children, parent.level)
  }

  ghost predicate Reached(read: (u64, nat) -> Option<Node>, root: Ref, ref: Ref) {
    exists path :: Path(read, root, path) && path[|path| - 1] == ref
  }

  lemma ReachedMore(read: (u64, nat) -> Option<Node>, root: Ref, parent: Ref, child: Ref)
    requires Reached(read, root, parent) && Child(read, parent, child)
    ensures Reached(read, root, child)
  {
    var path :| Path(read, root, path) && path[|path| - 1] == parent;
    var more := path + [child];
    assert Path(read, root, more);
  }

  ghost predicate BlockReached(read: (u64, nat) -> Option<Node>, root: Ref, b: u64) {
    exists level: nat :: Reached(read, root, Ref(b, level))
  }

  /** A block reads at one level only: it stores its own. */
  ghost predicate OneLevel(read: (u64, nat) -> Option<Node>) {
    forall b, k, l: nat | read(b, k).Some? && read(b, l).Some? :: k == l
  }

  /** Visited, or still to be visited. */
  predicate Pending(stack: seq<Ref>, visited: set<u64>, b: u64) {
    b in visited || exists i :: 0 <= i < |stack| && stack[i].logical == b
  }

  /** Every child of a visited block is visited or pending; everything visited or pending is reached. */
  ghost predicate Frontier(read: (u64, nat) -> Option<Node>, root: Ref, stack: seq<Ref>, visited: set<u64>) {
    && Pending(stack, visited, root.logical)
    && (forall i | 0 <= i < |stack| :: Reached(read, root, stack[i]))
    && (forall b | b in visited :: BlockReached(read, root, b))
    && (forall parent: Ref, child: Ref | parent.logical in visited
       && Child(read, parent, child) :: Pending(stack, visited, child.logical))
  }

  /** A visited block on top changes nothing. */
  lemma FrontierSkips(read: (u64, nat) -> Option<Node>, root: Ref, stack: seq<Ref>, visited: set<u64>)
    requires Frontier(read, root, stack, visited) && stack != [] && stack[|stack| - 1].logical in visited
    ensures Frontier(read, root, stack[..|stack| - 1], visited)
  {
    hide Reached, Child, BlockReached;
    forall b | Pending(stack, visited, b) ensures Pending(stack[..|stack| - 1], visited, b) {
      PendingLess(stack, visited, b);
    }
    assert forall i | 0 <= i < |stack| - 1 :: stack[..|stack| - 1][i] == stack[i];
  }

  lemma PendingLess(stack: seq<Ref>, visited: set<u64>, b: u64)
    requires stack != [] && Pending(stack, visited, b)
    ensures Pending(stack[..|stack| - 1], visited, b) || b == stack[|stack| - 1].logical
  {
    if b !in visited {
      var i :| 0 <= i < |stack| && stack[i].logical == b;
      assert i < |stack| - 1 ==> stack[..|stack| - 1][i].logical == b;
    }
  }

  lemma FrontierVisits(read: (u64, nat) -> Option<Node>, root: Ref, stack: seq<Ref>, visited: set<u64>)
    requires OneLevel(read) && Frontier(read, root, stack, visited) && stack != []
    requires stack[|stack| - 1].logical !in visited && read(stack[|stack| - 1].logical, stack[|stack| - 1].level).Some?
    ensures var cur := stack[|stack| - 1]; var node := read(cur.logical, cur.level).value;
            Frontier(read, root, stack[..|stack| - 1] + Pushed(node, cur.level), visited + {cur.logical})
  {
    hide Reached;
    var cur, rest := stack[|stack| - 1], stack[..|stack| - 1];
    var node := read(cur.logical, cur.level).value;
    var more := rest + Pushed(node, cur.level);
    forall i | 0 <= i < |more| ensures Reached(read, root, more[i]) {
      if i < |rest| {
        assert more[i] == stack[i];
      } else {
        assert Child(read, cur, more[i]);
        ReachedMore(read, root, cur, more[i]);
      }
    }
    forall b | Pending(stack, visited, b) ensures Pending(more, visited + {cur.logical}, b) {
      StillPending(stack, visited, b, Pushed(node, cur.level));
    }
    forall parent: Ref, child: Ref | parent.logical in visited + {cur.logical} && Child(read, parent, child)
      ensures Pending(more, visited + {cur.logical}, child.logical)
    {
      if parent.logical !in visited {
        assert parent.level == cur.level;
        ChildPushed(read, cur, child, rest, visited + {cur.logical});
      }
    }
    assert BlockReached(read, root, cur.logical) by {
      assert Reached(read, root, Ref(cur.logical, cur.level));
    }
  }

  lemma StillPending(stack: seq<Ref>, visited: set<u64>, b: u64, pushed: seq<Ref>)
    requires stack != [] && Pending(stack, visited, b)
    ensures Pending(stack[..|stack| - 1] + pushed, visited + {stack[|stack| - 1].logical}, b)
  {
    PendingLess(stack, visited, b);
    var rest := stack[..|stack| - 1];
    if b !in visited && b != stack[|stack| - 1].logical {
      var i :| 0 <= i < |rest| && rest[i].logical == b;
      assert (rest + pushed)[i].logical == b;
    }
  }

  lemma ChildPushed(read: (u64, nat) -> Option<Node>, cur: Ref, child: Ref, rest: seq<Ref>, visited: set<u64>)
    requires Child(read, cur, child)
    ensures Pending(rest + Pushed(read(cur.logical, cur.level).value, cur.level), visited, child.logical)
  {
    var refs := Refs(read(cur.logical, cur.level).value.children, cur.level);
    var i :| 0 <= i < |refs| && refs[i] == child;
    var pushed := Backwards(refs);
    assert (rest + pushed)[|rest| + (|refs| - 1 - i)] == child;
  }

  /** The blocks of a successful walk are exactly those reached from the root. */
  lemma {:induction false} ReadsReachable(read: (u64, nat) -> Option<Node>, root: Ref, stack: seq<Ref>,
      visited: set<u64>, out: Walked)
    requires |visited| <= MAX_BLOCKS && Tracks(visited, out.blocks) && Walk(read, stack, visited, out).Some?
    requires OneLevel(read) && Frontier(read, root, stack, visited)
    ensures forall b :: b in Walk(read, stack, visited, out).value.blocks <==> BlockReached(read, root, b)
    decreases MAX_BLOCKS - |visited|, |stack|
  {
    hide OneLevel, Frontier, Tracks, BlockReached, Pushed;
    if stack == [] {
      ClosedIsReached(read, root, visited, out.blocks);
    } else {
      var cur, rest := stack[|stack| - 1], stack[..|stack| - 1];
      if cur.logical != 0 && cur.logical in visited {
        FrontierSkips(read, root, stack, visited);
        ReadsReachable(read, root, rest, visited, out);
      } else {
        var node := Visit(read, visited, cur).value;
        FrontierVisits(read, root, stack, visited);
        TracksMore(visited, out.blocks, cur.logical);
        ReadsReachable(read, root, rest + Pushed(node, cur.level), visited + {cur.logical},
            Extend(out, cur.logical, node));
      }
    }
  }

  lemma ClosedIsReached(read: (u64, nat) -> Option<Node>, root: Ref, visited: set<u64>, blocks: seq<u64>)
    requires Frontier(read, root, [], visited) && Tracks(visited, blocks)
    ensures forall b :: b in blocks <==> BlockReached(read, root, b)
  {
    forall b | BlockReached(read, root, b) ensures b in visited {
      var level: nat :| Reached(read, root, Ref(b, level));
      var path :| Path(read, root, path) && path[|path| - 1] == Ref(b, level);
      PathVisited(read, root, visited, path);
    }
  }

  lemma {:induction false} PathVisited(read: (u64, nat) -> Option<Node>, root: Ref, visited: set<u64>, path: seq<Ref>)
    requires Frontier(read, root, [], visited) && Path(read, root, path)
    ensures path[|path| - 1].logical in visited
  {
    if |path| > 1 {
      var front := path[..|path| - 1];
      assert Path(read, root, front);
      PathVisited(read, root, visited, front);
      assert Child(read, path[|path| - 2], path[|path| - 1]);
    }
  }

  /** The walk from a root reads every reachable block once and no other. */
  lemma WalkReads(read: (u64, nat) -> Option<Node>, root: Ref)
    requires OneLevel(read) && Walk(read, [root], {}, Walked([], [])).Some?
    ensures var blocks := Walk(read, [root], {}, Walked([], [])).value.blocks;
            Distinct(blocks) && forall b :: b in blocks <==> BlockReached(read, root, b)
  {
    hide OneLevel;
    assert Path(read, root, [root]);
    assert Reached(read, root, root);
    ReadsOnce(read, [root], {}, Walked([], []));
    ReadsReachable(read, root, [root], {}, Walked([], []));
  }

  // ---- genuine trees ----------------------------------------------------------------------------

  datatype Tree = LeafTree(logical: u64, items: seq<Item>) | InnerTree(logical: u64, kids: Forest)

  datatype Forest = Nil | Cons(head: Tree, tail: Forest)

  function Roots(f: Forest): seq<u64> {
    match f
    case Nil => []
    case Cons(t, rest) => [t.logical] + Roots(rest)
  }

  /** The blocks store this tree. */
  ghost predicate Stores(read: (u64, nat) -> Option<Node>, t: Tree, level: nat) {
    && t.logical != 0
    && match t
       case LeafTree(logical, items) => read(logical, level) == Some(Leaf(items))
       case InnerTree(logical, kids) =>
             read(logical, level) == Some(Inner(Roots(kids))) && StoresAll(read, kids, Below(level))
  }

  ghost predicate StoresAll(read: (u64, nat) -> Option<Node>, f: Forest, level: nat) {
    match f
    case Nil => true
    case Cons(t, rest) => Stores(read, t, level) && StoresAll(read, rest, level)
  }

  /** Leaf items from left to right. */
  function ItemsOf(t: Tree): seq<Item> {
    match t
    case LeafTree(_, items) => items
    case InnerTree(_, kids) => ItemsOfAll(kids)
  }

  function ItemsOfAll(f: Forest): seq<Item> {
    match f
    case Nil => []
    case Cons(t, rest) => ItemsOf(t) + ItemsOfAll(rest)
  }

  /** Blocks, parents before children, left to right. */
  function BlocksOf(t: Tree): seq<u64> {
    match t
    case LeafTree(logical, _) => [logical]
    case InnerTree(logical, kids) => [logical] + BlocksOfAll(kids)
  }

  function BlocksOfAll(f: Forest): seq<u64> {
    match f
    case Nil => []
    case Cons(t, rest) => BlocksOf(t) + BlocksOfAll(rest)
  }

  function SetOf(s: seq<u64>): set<u64> {
    set x | x in s
  }

  /** A stored tree of new blocks that still fit. */
  predicate Fresh(blocks: seq<u64>, visited: set<u64>) {
    Distinct(blocks) && SetOf(blocks) !! visited && |visited + SetOf(blocks)| <= MAX_BLOCKS
  }

  lemma SetOfJoin(a: seq<u64>, b: seq<u64>)
    ensures SetOf(a + b) == SetOf(a) + SetOf(b)
  {
  }

  lemma SetOfOne(b: u64, rest: seq<u64>)
    ensures SetOf([b]) == {b} && b in SetOf([b] + rest)
  {
    assert ([b] + rest)[0] == b;
  }

  lemma SetOfNone(visited: set<u64>)
    ensures visited + SetOf([]) == visited
  {
  }

  lemma DistinctSplit(a: seq<u64>, b: seq<u64>)
    requires Distinct(a + b)
    ensures Distinct(a) && Distinct(b) && SetOf(a) !! SetOf(b)
  {
    var ab := a + b;
    assert forall i | 0 <= i < |a| :: ab[i] == a[i];
    assert forall i | 0 <= i < |b| :: ab[|a| + i] == b[i];
    forall x | x in SetOf(a) ensures x !in SetOf(b) {
      var i :| 0 <= i < |a| && a[i] == x;
      assert ab[i] == x;
      assert forall k | |a| <= k < |ab| :: ab[k] != ab[i];
    }
  }

  lemma FreshSplit(a: seq<u64>, b: seq<u64>, visited: set<u64>)
    requires Fresh(a + b, visited)
    ensures Fresh(a, visited) && Fresh(b, visited + SetOf(a)) && |visited| <= MAX_BLOCKS
    ensures visited + SetOf(a + b) == visited + SetOf(a) + SetOf(b)
  {
    hide Distinct, SetOf;
    DistinctSplit(a, b);
    SetOfJoin(a, b);
    assert visited + SetOf(a + b) == visited + SetOf(a) + SetOf(b);
    SubsetSize(visited + SetOf(a), visited + SetOf(a + b));
    SubsetSize(visited, visited + SetOf(a + b));
  }

  lemma FreshFits(blocks: seq<u64>, visited: set<u64>)
    requires Fresh(blocks, visited)
    ensures |visited + SetOf(blocks)| <= MAX_BLOCKS
  {
  }

  /** The first block of a fresh list is new and fits. */
  lemma FreshFirst(b: u64, rest: seq<u64>, visited: set<u64>)
    requires Fresh([b] + rest, visited)
    ensures b !in visited && |visited + {b}| <= MAX_BLOCKS && visited + SetOf([b]) == visited + {b}
  {
    hide Distinct;
    SetOfOne(b, rest);
    FreshSplit([b], rest, visited);
  }

  lemma {:induction false} SubsetSize(a: set<u64>, b: set<u64>)
    requires a <= b
    ensures |a| <= |b|
  {
    if a != {} {
      var x :| x in a;
      SubsetSize(a - {x}, b - {x});
    }
  }

  function Grown(out: Walked, items: seq<Item>, blocks: seq<u64>): Walked {
    Walked(out.items + items, out.blocks + blocks)
  }

  /** Walking a stored tree on top of the stack appends its items and blocks and goes on below it. */
  lemma {:induction false} WalksTree(
    read: (u64, nat) -> Option<Node>, t: Tree, level: nat, stack: seq<Ref>, visited: set<u64>, out: Walked)
    requires Stores(read, t, level) && Fresh(BlocksOf(t), visited) && |visited| <= MAX_BLOCKS
    ensures |visited + SetOf(BlocksOf(t))| <= MAX_BLOCKS
    ensures Walk(read, stack + [Ref(t.logical, level)], visited, out)
         == Walk(read, stack, visited + SetOf(BlocksOf(t)), Grown(out, ItemsOf(t), BlocksOf(t)))
    decreases t
  {
    hide Walk, Fresh, SetOf, Distinct;
    FreshFits(BlocksOf(t), visited);
    match t
    case LeafTree(logical, items) =>
      assert [logical] + [] == [logical];
      FreshFirst(logical, [], visited);
      WalksOne(read, stack, Ref(logical, level), visited, out, Leaf(items));
      assert stack + Pushed(Leaf(items), level) == stack;
    case InnerTree(logical, kids) =>
      FreshFirst(logical, BlocksOfAll(kids), visited);
      FreshSplit([logical], BlocksOfAll(kids), visited);
      var next := Extend(out, logical, Inner(Roots(kids)));
      WalksOne(read, stack, Ref(logical, level), visited, out, Inner(Roots(kids)));
      PushedRoots(kids, level);
      WalksForest(read, kids, Below(level), stack, visited + {logical}, next);
      assert Grown(next, ItemsOfAll(kids), BlocksOfAll(kids)) == Grown(out, ItemsOf(t), BlocksOf(t));
  }

  /** One visit of a new block. */
  lemma WalksOne(read: (u64, nat) -> Option<Node>, stack: seq<Ref>, cur: Ref, visited: set<u64>, out: Walked,
      node: Node)
    requires |visited| <= MAX_BLOCKS && cur.logical != 0 && cur.logical !in visited
             && |visited + {cur.logical}| <= MAX_BLOCKS
    requires read(cur.logical, cur.level) == Some(node)
    ensures Walk(read, stack + [cur], visited, out)
         == Walk(read, stack + Pushed(node, cur.level), visited + {cur.logical}, Extend(out, cur.logical, node))
  {
    hide Pushed, Extend;
    assert (stack + [cur])[..|stack|] == stack;
  }

  /** The stacked roots of a forest, the first on top. */
  function Stacked(f: Forest, level: nat): (r: seq<Ref>) {
    match f
    case Nil => []
    case Cons(t, rest) => Stacked(rest, level) + [Ref(t.logical, level)]
  }

  lemma {:induction false} StackedRoots(f: Forest, level: nat)
    ensures |Stacked(f, level)| == |Roots(f)|
    ensures forall i | 0 <= i < |Roots(f)| :: Stacked(f, level)[|Roots(f)| - 1 - i] == Ref(Roots(f)[i], level)
  {
    match f
    case Nil =>
    case Cons(t, rest) => StackedRoots(rest, level);
  }

  lemma PushedRoots(kids: Forest, level: nat)
    ensures Pushed(Inner(Roots(kids)), level) == Stacked(kids, Below(level))
  {
    StackedRoots(kids, Below(level));
    var pushed, stacked := Pushed(Inner(Roots(kids)), level), Stacked(kids, Below(level));
    forall i | 0 <= i < |pushed| ensures pushed[i] == stacked[i] {
      assert stacked[|Roots(kids)| - 1 - (|Roots(kids)| - 1 - i)]
          == Ref(Roots(kids)[|Roots(kids)| - 1 - i], Below(level));
    }
  }

  lemma {:induction false} WalksForest(
    read: (u64, nat) -> Option<Node>, f: Forest, level: nat, stack: seq<Ref>, visited: set<u64>, out: Walked)
    requires StoresAll(read, f, level) && Fresh(BlocksOfAll(f), visited) && |visited| <= MAX_BLOCKS
    ensures |visited + SetOf(BlocksOfAll(f))| <= MAX_BLOCKS
    ensures Walk(read, stack + Stacked(f, level), visited, out)
         == Walk(read, stack, visited + SetOf(BlocksOfAll(f)), Grown(out, ItemsOfAll(f), BlocksOfAll(f)))
    decreases f
  {
    hide Walk, Fresh, SetOf, Distinct;
    FreshFits(BlocksOfAll(f), visited);
    match f
    case Nil =>
      assert stack + [] == stack;
      SetOfNone(visited);
      assert Grown(out, [], []) == out;
    case Cons(t, rest) =>
      FreshSplit(BlocksOf(t), BlocksOfAll(rest), visited);
      FreshFits(BlocksOf(t), visited);
      assert stack + Stacked(f, level) == (stack + Stacked(rest, level)) + [Ref(t.logical, level)];
      WalksTree(read, t, level, stack + Stacked(rest, level), visited, out);
      WalksForest(read, rest, level, stack, visited + SetOf(BlocksOf(t)), Grown(out, ItemsOf(t), BlocksOf(t)));
      assert Grown(Grown(out, ItemsOf(t), BlocksOf(t)), ItemsOfAll(rest), BlocksOfAll(rest))
          == Grown(out, ItemsOfAll(f), BlocksOfAll(f));
  }

  /** On a genuine tree, with distinct blocks within the limit, the walk emits the leaf items from left to right and
      the blocks parents first. */
  lemma WalkInOrder(read: (u64, nat) -> Option<Node>, t: Tree, level: nat)
    requires Stores(read, t, level) && Distinct(BlocksOf(t)) && |SetOf(BlocksOf(t))| <= MAX_BLOCKS
    ensures Walk(read, [Ref(t.logical, level)], {}, Walked([], [])) == Some(Walked(ItemsOf(t), BlocksOf(t)))
  {
    hide Stores;
    assert {} + SetOf(BlocksOf(t)) == SetOf(BlocksOf(t));
    WalksTree(read, t, level, [], {}, Walked([], []));
    assert [] + [Ref(t.logical, level)] == [Ref(t.logical, level)];
    assert Grown(Walked([], []), ItemsOf(t), BlocksOf(t)) == Walked(ItemsOf(t), BlocksOf(t));
  }
}
