/** Units and cells of the allocation map: cell boundaries, what a unit's state is, and counting units one by one. */
module MapUnits {
  import opened Wrappers

  // ---- cell boundaries --------------------------------------------------------------------------

  const U64_LIMIT := 0x1_0000_0000_0000_0000
  const MAX_CELLS := 0x10_0000

  /** Where cell i begins: an even split of the units. */
  function Boundary(i: nat, total: nat, count: nat): nat
    requires count > 0
  {
    i * total / count
  }

  lemma DivMod(n: nat, d: nat)
    requires d > 0
    ensures n == n / d * d + n % d && n % d < d
  {
  }

  lemma Grows(a: nat, b: nat, d: nat)
    requires a <= b && d > 0
    ensures a / d <= b / d
  {
    DivMod(a, d);
    DivMod(b, d);
    var q, p := a / d, b / d;
    Collect(p, q - p, d, 0);
    AtLeast(q - p, d);
  }

  lemma Collect(y: int, s: int, d: nat, t: int)
    ensures y * d + (s * d + t) == (y + s) * d + t
  {
  }

  /** The program splits the product so that it stays inside 64 bits: the same boundary, and nothing overflows. highest
      is the largest value met on the way. */
  method CellBoundary(i: nat, total: nat, count: nat) returns (b: nat, highest: nat)
    requires 0 < count <= MAX_CELLS && i <= count && total < U64_LIMIT
    ensures b == Boundary(i, total, count) && b <= total && highest < U64_LIMIT
  {
    var quotient, remainder := total / count, total % count;
    DivMod(total, count);
    PartsFit(i, quotient, count, remainder, total);
    var whole, rest := i * quotient, i * remainder;
    highest := if whole < rest then rest else whole;
    SplitSum(i, total, count);
    Bounded(i, count, total);
    b := whole + rest / count;
  }

  lemma SplitSum(i: nat, total: nat, count: nat)
    requires 0 < count && i <= count
    ensures i * (total / count) + i * (total % count) / count == Boundary(i, total, count)
  {
    DivMod(total, count);
    PartsAdd(i, total / count, count, total % count, total);
  }

  lemma PartsAdd(i: nat, q: nat, count: nat, r: nat, total: nat)
    requires 0 < count && total == q * count + r
    ensures i * total / count == i * q + i * r / count
  {
    var x, y := i * r, i * q;
    Distribute(i, q, count, r, total);
    DivMod(x, count);
    Collect(y, x / count, count, x % count);
    Quotient(i * total, count, y + x / count, x % count);
  }

  lemma PartsFit(i: nat, q: nat, count: nat, r: nat, total: nat)
    requires i <= count <= MAX_CELLS && total == q * count + r && r < count
    ensures i * q <= total && i * r <= MAX_CELLS * MAX_CELLS
  {
    Times(i, count, q);
    Swap(count, q);
    Times(i, MAX_CELLS, r);
    Times(r, MAX_CELLS, MAX_CELLS);
    Swap(MAX_CELLS, r);
  }

  lemma Swap(a: nat, b: nat)
    ensures a * b == b * a
  {
  }

  lemma Distribute(i: nat, q: nat, c: nat, r: nat, total: nat)
    requires total == q * c + r
    ensures i * total == i * q * c + i * r
  {
    Associate(i, q, c);
    assert i * (q * c + r) == i * (q * c) + i * r;
  }

  lemma Associate(a: nat, b: nat, c: nat)
    ensures a * (b * c) == a * b * c
  {
  }

  lemma Bounded(i: nat, count: nat, total: nat)
    requires 0 < count && i <= count
    ensures i * total / count <= total
  {
    Times(i, count, total);
    Grows(i * total, count * total, count);
    Swap(count, total);
    Quotient(count * total, count, total, 0);
  }

  lemma Times(a: nat, b: nat, c: nat)
    requires a <= b
    ensures a * c <= b * c
  {
  }

  lemma NextProduct(i: nat, total: nat)
    ensures (i + 1) * total == i * total + total
  {
  }

  /** The first cell begins at 0, the last ends at the total, and with no more cells than units none is empty. */
  lemma BoundariesSplit(total: nat, count: nat, i: nat)
    requires 0 < count && i < count
    ensures Boundary(0, total, count) == 0 && Boundary(count, total, count) == total
    ensures Boundary(i, total, count) <= Boundary(i + 1, total, count) <= total
    ensures count <= total ==> Boundary(i, total, count) < Boundary(i + 1, total, count)
  {
    NextProduct(i, total);
    Swap(count, total);
    Quotient(count * total, count, total, 0);
    Quotient(0, count, 0, 0);
    Grows(i * total, (i + 1) * total, count);
    Bounded(i + 1, count, total);
    if count <= total {
      DivMod(i * total, count);
      NextProduct(i * total / count, count);
      Quotient(i * total + count, count, i * total / count + 1, i * total % count);
      Grows(i * total + count, (i + 1) * total, count);
    }
  }

  // ---- counting ---------------------------------------------------------------------------------

  const FREE := 0
  const USED := 1
  const UNKNOWN := 2
  const BAD := 3

  /** How many of the units [a, b) are in a state. */
  function Count(state: nat -> nat, a: nat, b: nat, s: nat): (n: nat)
    ensures n <= if a <= b then b - a else 0
    decreases b
  {
    if b <= a then 0 else Count(state, a, b - 1, s) + (if state(b - 1) == s then 1 else 0)
  }

  lemma {:induction false} CountSplits(state: nat -> nat, a: nat, b: nat, c: nat, s: nat)
    requires a <= b <= c
    ensures Count(state, a, c, s) == Count(state, a, b, s) + Count(state, b, c, s)
    decreases c
  {
    if b < c {
      CountSplits(state, a, b, c - 1, s);
    }
  }

  /** The units of a stretch that are in state s. */
  function UnitsIn(state: nat -> nat, a: nat, b: nat, s: nat): set<nat> {
    set p: nat | a <= p < b && state(p) == s
  }

  lemma OneMoreUnit(state: nat -> nat, a: nat, b: nat, s: nat)
    requires a < b
    ensures |UnitsIn(state, a, b, s)| == |UnitsIn(state, a, b - 1, s)| + if state(b - 1) == s then 1 else 0
  {
    var all, before := UnitsIn(state, a, b, s), UnitsIn(state, a, b - 1, s);
    if state(b - 1) == s {
      assert all == before + {b - 1};
    } else {
      assert all == before;
    }
  }

  /** That is the size of the set of those units. */
  lemma {:induction false} CountIsSize(state: nat -> nat, a: nat, b: nat, s: nat)
    ensures Count(state, a, b, s) == |set p: nat | a <= p < b && state(p) == s|
    decreases b
  {
    assert UnitsIn(state, a, b, s) == set p: nat | a <= p < b && state(p) == s;
    if b <= a {
      assert UnitsIn(state, a, b, s) == {};
    } else {
      assert UnitsIn(state, a, b - 1, s) == set p: nat | a <= p < b - 1 && state(p) == s;
      CountIsSize(state, a, b - 1, s);
      OneMoreUnit(state, a, b, s);
    }
  }

  /** A stretch in one state. */
  lemma {:induction false} CountRun(state: nat -> nat, a: nat, b: nat, t: nat, s: nat)
    requires a <= b && forall p | a <= p < b :: state(p) == t
    ensures Count(state, a, b, s) == if s == t then b - a else 0
    decreases b
  {
    if a < b {
      CountRun(state, a, b - 1, t, s);
    }
  }

  /** Units that agree count alike. */
  lemma {:induction false} CountAgrees(f: nat -> nat, g: nat -> nat, a: nat, b: nat, s: nat)
    requires forall p | a <= p < b :: f(p) == g(p)
    ensures Count(f, a, b, s) == Count(g, a, b, s)
    decreases b
  {
    if a < b {
      CountAgrees(f, g, a, b - 1, s);
    }
  }

  /** Every unit is in one of the four states. */
  lemma {:induction false} CountsTotal(state: nat -> nat, a: nat, b: nat)
    requires a <= b && (forall p | a <= p < b :: state(p) <= BAD)
    ensures Count(state, a, b, FREE) + Count(state, a, b, USED) + Count(state, a, b, UNKNOWN) + Count(state, a, b,
            BAD) == b - a
    decreases b
  {
    if a < b {
      CountsTotal(state, a, b - 1);
    }
  }

  function Counts(state: nat -> nat, a: nat, b: nat): (r: seq<nat>)
    ensures |r| == 4 && forall s | 0 <= s < 4 :: r[s] == Count(state, a, b, s)
  {
    [Count(state, a, b, 0), Count(state, a, b, 1), Count(state, a, b, 2), Count(state, a, b, 3)]
  }

  function Plus(a: seq<nat>, b: seq<nat>): (r: seq<nat>)
    requires |a| == |b| == 4
    ensures |r| == 4 && forall s | 0 <= s < 4 :: r[s] == a[s] + b[s]
  {
    [a[0] + b[0], a[1] + b[1], a[2] + b[2], a[3] + b[3]]
  }

  lemma CountsJoin(state: nat -> nat, a: nat, b: nat, c: nat)
    requires a <= b <= c
    ensures Counts(state, a, c) == Plus(Counts(state, a, b), Counts(state, b, c))
  {
    forall s | 0 <= s < 4 ensures Count(state, a, c, s) == Count(state, a, b, s) + Count(state, b, c, s) {
      CountSplits(state, a, b, c, s);
    }
  }

  // ---- cells ------------------------------------------------------------------------------------

  /** A cell covers the units [start, end). */
  datatype Cell = Cell(start: nat, end: nat, counts: seq<nat>)

  /** How many cells the map gets: at least one, at most one a unit. */
  function CellsFor(cells: nat, total: nat): (n: nat)
    ensures n >= 1 && (total >= 1 ==> n <= total)
    ensures (1 <= cells <= total ==> n == cells) && (cells > total >= 1 ==> n == total) && (cells == 0 ==> n == 1)
  {
    var most := if total < 1 then 1 else total;
    var n := if cells < most then cells else most;
    if n < 1 then 1 else n
  }

  /** Cells that split the units evenly, in order, each counting exactly its own units. */
  ghost predicate Aggregates(cells: seq<Cell>, state: nat -> nat, total: nat, count: nat)
    requires count > 0
  {
    |cells| <= count && forall i | 0 <= i < |cells| :: CellRight(cells[i], state, total, count, i)
  }

  ghost predicate CellRight(c: Cell, state: nat -> nat, total: nat, count: nat, i: nat)
    requires count > 0
  {
    && c.start == Boundary(i, total, count) && c.end == Boundary(i + 1, total, count)
    && c.counts == Counts(state, c.start, c.end)
  }

  /** The counts of the first n cells add up to the units they cover. */
  function Totals(cells: seq<Cell>): (r: seq<nat>)
    requires forall i | 0 <= i < |cells| :: |cells[i].counts| == 4
    ensures |r| == 4
  {
    if cells == [] then [0, 0, 0, 0] else Plus(Totals(cells[..|cells| - 1]), cells[|cells| - 1].counts)
  }

  lemma {:induction false} TotalsCount(cells: seq<Cell>, state: nat -> nat, total: nat, count: nat)
    requires count > 0 && Aggregates(cells, state, total, count)
    ensures forall i | 0 <= i < |cells| :: |cells[i].counts| == 4
    ensures Totals(cells) == Counts(state, 0, Boundary(|cells|, total, count))
  {
    hide Boundary;
    if cells == [] {
      NoCells(total, count);
    } else {
      var front, i := cells[..|cells| - 1], |cells| - 1;
      TotalsCount(front, state, total, count);
      BoundariesSplit(total, count, i);
      CountsJoin(state, 0, Boundary(i, total, count), Boundary(i + 1, total, count));
    }
  }

  lemma NoCells(total: nat, count: nat)
    requires count > 0
    ensures Boundary(0, total, count) == 0
  {
    BoundariesSplit(total, count, 0);
  }

  /** The cells of a whole map cover every unit once, and their totals are the counts over all units. */
  lemma CellsPartition(cells: seq<Cell>, state: nat -> nat, total: nat, count: nat)
    requires count > 0 && Aggregates(cells, state, total, count) && |cells| == count
    ensures cells[0].start == 0 && cells[count - 1].end == total
    ensures forall i | 0 <= i < count - 1 :: cells[i].end == cells[i + 1].start
    ensures (forall i | 0 <= i < |cells| :: |cells[i].counts| == 4) && Totals(cells) == Counts(state, 0, total)
  {
    hide Boundary, Totals, Counts;
    TotalsCount(cells, state, total, count);
    BoundariesSplit(total, count, 0);
    forall i | 0 <= i < count - 1 ensures cells[i].end == cells[i + 1].start {
      assert CellRight(cells[i], state, total, count, i) && CellRight(cells[i + 1], state, total, count, i + 1);
    }
  }

  /** Two ways of aggregating agree when every unit's state does. */
  lemma FormsAgree(a: seq<Cell>, f: nat -> nat, b: seq<Cell>, g: nat -> nat, total: nat, count: nat)
    requires count > 0 && Aggregates(a, f, total, count) && Aggregates(b, g, total, count) && |a| == |b|
    requires forall p | 0 <= p < total :: f(p) == g(p)
    ensures a == b
  {
    hide Boundary, Counts;
    forall i | 0 <= i < |a| ensures a[i] == b[i] {
      assert CellRight(a[i], f, total, count, i) && CellRight(b[i], g, total, count, i);
      BoundariesSplit(total, count, i);
      CountsAgree(f, g, Boundary(i, total, count), Boundary(i + 1, total, count));
    }
  }

  lemma CountsAgree(f: nat -> nat, g: nat -> nat, a: nat, b: nat)
    requires forall p | a <= p < b :: f(p) == g(p)
    ensures Counts(f, a, b) == Counts(g, a, b)
  {
    CountAgrees(f, g, a, b, 0);
    CountAgrees(f, g, a, b, 1);
    CountAgrees(f, g, a, b, 2);
    CountAgrees(f, g, a, b, 3);
  }

  // ---- the script's boundaries ------------------------------------------------------------------

  /** The script ends every cell at least one unit after its start. */
  function ScriptEnd(i: nat, total: nat, count: nat): nat
    requires count > 0
  {
    var start, end := Boundary(i, total, count), Boundary(i + 1, total, count);
    if end < start + 1 then start + 1 else end
  }

  /** That gives the even split exactly when there is a unit to split; a map of no units gets a cell of one. */
  lemma ScriptSplitsExactly(cells: nat, total: nat)
    ensures (forall i | 0 <= i < CellsFor(cells, total) ::
               ScriptEnd(i, total, CellsFor(cells, total)) == Boundary(i + 1, total, CellsFor(cells, total))) <==>
                     total >= 1
    ensures total == 0 ==> CellsFor(cells, total) == 1 && ScriptEnd(0, 0, 1) == 1
  {
    var count := CellsFor(cells, total);
    if total >= 1 {
      forall i | 0 <= i < count ensures ScriptEnd(i, total, count) == Boundary(i + 1, total, count) {
        BoundariesSplit(total, count, i);
      }
    } else {
      assert ScriptEnd(0, 0, 1) == 1 && Boundary(1, 0, 1) == 0;
    }
  }

  /** The units a script's map covers: a map of none still gets one. */
  function Units(total: nat): nat {
    if total == 0 then 1 else total
  }

  /** So the script's cells always split those units evenly. */
  lemma ScriptSplitsUnits(cells: nat, total: nat, i: nat)
    requires i < CellsFor(cells, total)
    ensures var count := CellsFor(cells, total);
            && count == CellsFor(cells, Units(total)) && Boundary(i, total, count) == Boundary(i, Units(total), count)
            && ScriptEnd(i, total, count) == Boundary(i + 1, Units(total), count)
  {
    ScriptSplitsExactly(cells, total);
    if total == 0 {
      BoundariesSplit(0, 1, 0);
      BoundariesSplit(1, 1, 0);
    }
  }
}
