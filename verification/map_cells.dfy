/** Aggregating allocation ranges and state streams into map cells in one pass each, and overlaying ranges on them. */
module MapCells {
  import opened Wrappers
  import opened MapUnits
  import opened Intervals

  datatype StateRange = StateRange(start: nat, end: nat, state: nat)

  predicate Holds(r: StateRange, p: nat) {
    r.start <= p < r.end
  }

  /** The state of a unit: that of the range that holds it, unknown in a gap. */
  function StateOf(rs: seq<StateRange>, p: nat): nat {
    if rs == [] then UNKNOWN
    else if Holds(rs[|rs| - 1], p) then rs[|rs| - 1].state
    else StateOf(rs[..|rs| - 1], p)
  }

  function StateIn(rs: seq<StateRange>): nat -> nat {
    p => StateOf(rs, p)
  }

  /** Non-empty ranges in valid states, in order, without overlap. */
  predicate Ordered(rs: seq<StateRange>) {
    && (forall i | 0 <= i < |rs| :: rs[i].start < rs[i].end && rs[i].state <= BAD)
    && (forall i, j | 0 <= i < j < |rs| :: rs[i].end <= rs[j].start)
  }

  lemma {:induction false} StateAt(rs: seq<StateRange>, k: nat, p: nat)
    requires Ordered(rs) && k < |rs| && Holds(rs[k], p)
    ensures StateOf(rs, p) == rs[k].state
  {
    if k < |rs| - 1 {
      StateAt(rs[..|rs| - 1], k, p);
    }
  }

  lemma {:induction false} StateGap(rs: seq<StateRange>, p: nat)
    requires forall k | 0 <= k < |rs| :: !Holds(rs[k], p)
    ensures StateOf(rs, p) == UNKNOWN
  {
    if rs != [] {
      StateGap(rs[..|rs| - 1], p);
    }
  }

  // ---- ordering ---------------------------------------------------------------------------------

  function Clipped(r: StateRange, total: nat): StateRange {
    StateRange(if r.start < total then r.start else total, if r.end < total then r.end else total, r.state)
  }

  /** A range that still has units after clipping. */
  predicate Lasting(r: StateRange, total: nat) {
    Clipped(r, total).start < Clipped(r, total).end
  }

  predicate ValidStates(all: seq<StateRange>, total: nat) {
    forall i | 0 <= i < |all| && Lasting(all[i], total) :: all[i].state <= BAD
  }

  /** No unit below total is in two ranges. */
  predicate NoOverlap(all: seq<StateRange>, total: nat) {
    forall i, j | 0 <= i < j < |all| && Lasting(all[i], total)
        && Lasting(all[j], total) :: Clipped(all[i], total).end <= Clipped(all[j], total).start
  }

  /** The sorted ranges clipped, checked and joined: refused exactly for an invalid state or an overlap; otherwise in
      order, and saying of every unit what the ranges say. all is the order the library's sort has put them in. */
  method Normalise(all: seq<StateRange>, total: nat) returns (r: Option<seq<StateRange>>)
    requires forall i, j | 0 <= i < j < |all| :: all[i].start <= all[j].start
    ensures r.Some? <==> ValidStates(all, total) && NoOverlap(all, total)
    ensures r.Some? ==> Ordered(r.value) && (forall k | 0 <= k < |r.value| :: r.value[k].end <= total)
    ensures r.Some? ==> forall p: nat | p < total :: StateOf(r.value, p) == StateOf(all, p)
  {
    var ordered := [];
    for i := 0 to |all|
      invariant ValidStates(all[..i], total) && NoOverlap(all[..i], total)
      invariant Joined(ordered, all[..i], total)
    {
      hide StateOf;
      var range := Clipped(all[i], total);
      Prefix(all, i);
      NextChecks(all, total, i);
      if range.start < range.end {
        if range.state > BAD {
          return None;
        }
        if ordered != [] && range.start < ordered[|ordered| - 1].end {
          OverlapFound(ordered, all, total, i);
          return None;
        }
        JoinRange(ordered, all[..i], all[i], total);
        if ordered != [] && range.start == ordered[|ordered| - 1].end && range.state == ordered[|ordered| - 1].state {
          ordered := ordered[..|ordered| - 1] + [StateRange(ordered[|ordered| - 1].start, range.end, range.state)];
        } else {
          ordered := ordered + [range];
        }
      } else {
        DropRange(ordered, all[..i], all[i], total);
      }
    }
    assert all[..|all|] == all;
    r := Some(ordered);
  }

  /** The joined ranges say what the ones taken so far say; the last one ends where one of them does. */
  ghost predicate Joined(ordered: seq<StateRange>, all: seq<StateRange>, total: nat) {
    && Ordered(ordered) && (forall k | 0 <= k < |ordered| :: ordered[k].end <= total)
    && (forall p: nat | p < total :: StateOf(ordered, p) == StateOf(all, p))
    && (forall k | 0 <= k < |all| && Lasting(all[k], total) ::
         ordered != []
         && Clipped(all[k], total).end <= ordered[|ordered| - 1].end)
    && (ordered != [] ==> exists k ::
         0 <= k < |all| && Lasting(all[k], total)
         && Clipped(all[k], total).end == ordered[|ordered| - 1].end)
  }

  lemma Prefix(all: seq<StateRange>, i: nat)
    requires i < |all|
    ensures all[..i + 1] == all[..i] + [all[i]]
  {
  }

  /** What the checks on range i add to the checks before. */
  lemma NextChecks(all: seq<StateRange>, total: nat, i: nat)
    requires i < |all|
    ensures ValidStates(all[..i + 1], total) <==>
              ValidStates(all[..i], total) && (Lasting(all[i], total) ==> all[i].state <= BAD)
    ensures NoOverlap(all[..i + 1], total) <==>
              NoOverlap(all[..i], total)
              && forall k | 0 <= k < i && Lasting(all[k], total)
                 && Lasting(all[i], total) :: Clipped(all[k], total).end <= Clipped(all[i], total).start
    ensures ValidStates(all, total) ==> ValidStates(all[..i + 1], total)
    ensures NoOverlap(all, total) ==> NoOverlap(all[..i + 1], total)
  {
    var front, more := all[..i], all[..i + 1];
    assert forall k | 0 <= k < i :: front[k] == all[k] && more[k] == all[k];
    assert more[i] == all[i];
  }

  lemma OverlapFound(ordered: seq<StateRange>, all: seq<StateRange>, total: nat, i: nat)
    requires i < |all| && Joined(ordered, all[..i], total) && Lasting(all[i], total)
    requires ordered != [] && Clipped(all[i], total).start < ordered[|ordered| - 1].end
    ensures !NoOverlap(all, total)
  {
    hide StateOf;
    var k :| 0 <= k < i && Lasting(all[..i][k], total) && Clipped(all[..i][k], total).end == ordered[|ordered| - 1].end;
    assert all[..i][k] == all[k];
  }

  lemma StateAdds(all: seq<StateRange>, r: StateRange, p: nat)
    ensures StateOf(all + [r], p) == if Holds(r, p) then r.state else StateOf(all, p)
  {
    assert (all + [r])[..|all|] == all;
  }

  lemma DropRange(ordered: seq<StateRange>, all: seq<StateRange>, r: StateRange, total: nat)
    requires Joined(ordered, all, total) && !Lasting(r, total)
    ensures Joined(ordered, all + [r], total)
  {
    hide StateOf;
    var more := all + [r];
    forall p: nat | p < total ensures StateOf(ordered, p) == StateOf(more, p) {
      StateAdds(all, r, p);
    }
    assert forall k | 0 <= k < |all| :: more[k] == all[k];
  }

  /** The joined list with one lasting range more. */
  function Extended(ordered: seq<StateRange>, c: StateRange): seq<StateRange> {
    if ordered != [] && c.start == ordered[|ordered| - 1].end && c.state == ordered[|ordered| - 1].state then
      ordered[..|ordered| - 1] + [StateRange(ordered[|ordered| - 1].start, c.end, c.state)]
    else ordered + [c]
  }

  lemma JoinRange(ordered: seq<StateRange>, all: seq<StateRange>, r: StateRange, total: nat)
    requires Joined(ordered, all, total) && Lasting(r, total) && r.state <= BAD
    requires ordered != [] ==> Clipped(r, total).start >= ordered[|ordered| - 1].end
    ensures Joined(Extended(ordered, Clipped(r, total)), all + [r], total)
  {
    hide StateOf, Ordered;
    var c := Clipped(r, total);
    var more := all + [r];
    var next := Extended(ordered, c);
    JoinOrdered(ordered, c, total);
    LastOrdered(ordered);
    assert forall k | 0 <= k < |all| :: more[k] == all[k];
    assert more[|all|] == r;
    forall p: nat | p < total ensures StateOf(next, p) == StateOf(more, p) {
      JoinStates(ordered, all, r, total, p);
    }
  }

  lemma LastOrdered(ordered: seq<StateRange>)
    requires Ordered(ordered)
    ensures ordered != [] ==> ordered[|ordered| - 1].start < ordered[|ordered| - 1].end
  {
  }

  lemma JoinOrdered(ordered: seq<StateRange>, c: StateRange, total: nat)
    requires Ordered(ordered) && (forall k | 0 <= k < |ordered| :: ordered[k].end <= total)
    requires c.start < c.end <= total && c.state <= BAD && (ordered != [] ==> c.start >= ordered[|ordered| - 1].end)
    ensures Ordered(Extended(ordered, c))
            && forall k | 0 <= k < |Extended(ordered, c)| :: Extended(ordered, c)[k].end <= total
    ensures Extended(ordered, c)[|Extended(ordered, c)| - 1].end == c.end
  {
    var next := Extended(ordered, c);
    var n := |next| - 1;
    assert forall k | 0 <= k < n :: next[k] == ordered[k];
    assert next[n].start < next[n].end == c.end && next[n].state <= BAD;
    forall k | 0 <= k < n ensures ordered[k].end <= next[n].start {
      if n == |ordered| {
        assert k < |ordered| - 1 ==> ordered[k].end <= ordered[|ordered| - 1].start;
      } else {
        assert next[n].start == ordered[n].start;
      }
    }
  }

  lemma JoinStates(ordered: seq<StateRange>, all: seq<StateRange>, r: StateRange, total: nat, p: nat)
    requires p < total && StateOf(ordered, p) == StateOf(all, p) && Lasting(r, total)
    requires ordered != [] ==> ordered[|ordered| - 1].start <= ordered[|ordered| - 1].end <= Clipped(r, total).start
    ensures StateOf(Extended(ordered, Clipped(r, total)), p) == StateOf(all + [r], p)
  {
    hide StateOf;
    var c := Clipped(r, total);
    StateAdds(all, r, p);
    StateAdds(ordered, c, p);
    if ordered != [] {
      var front, last := ordered[..|ordered| - 1], ordered[|ordered| - 1];
      assert ordered == front + [last];
      StateAdds(front, last, p);
      StateAdds(front, StateRange(last.start, c.end, c.state), p);
    }
  }

  // ---- one cell ---------------------------------------------------------------------------------

  /** Adds n units of a state. */
  function Add(counts: seq<nat>, state: nat, n: nat): (r: seq<nat>)
    requires |counts| == 4 && state < 4
    ensures |r| == 4 && forall s | 0 <= s < 4 :: r[s] == counts[s] + (if s == state then n else 0)
  {
    counts[state := counts[state] + n]
  }

  /** Counting goes on over a stretch in one state. */
  lemma CountsOn(state: nat -> nat, a: nat, b: nat, c: nat, t: nat)
    requires a <= b <= c && t < 4 && forall p | b <= p < c :: state(p) == t
    ensures Counts(state, a, c) == Add(Counts(state, a, b), t, c - b)
  {
    forall s | 0 <= s < 4 ensures Counts(state, a, c)[s] == Add(Counts(state, a, b), t, c - b)[s] {
      CountSplits(state, a, b, c, s);
      CountRun(state, b, c, t, s);
    }
  }

  /** Between the end of the ranges before check and the start of that range nothing is known. */
  lemma GapUnknown(ordered: seq<StateRange>, check: nat, from: nat, to: nat)
    requires Ordered(ordered) && check <= |ordered| && (check > 0 ==> ordered[check - 1].end <= from)
    requires check < |ordered| ==> to <= ordered[check].start
    ensures forall p | from <= p < to :: StateIn(ordered)(p) == UNKNOWN
  {
    forall p | from <= p < to ensures StateOf(ordered, p) == UNKNOWN {
      forall k | 0 <= k < |ordered| ensures !Holds(ordered[k], p) {
        if k < check {
          assert k < check - 1 ==> ordered[k].end <= ordered[check - 1].start;
        } else {
          assert k > check ==> ordered[check].end <= ordered[k].start;
        }
      }
      StateGap(ordered, p);
    }
  }

  lemma RunKnown(ordered: seq<StateRange>, k: nat, from: nat, to: nat)
    requires Ordered(ordered) && k < |ordered| && ordered[k].start <= from && to <= ordered[k].end
    ensures forall p | from <= p < to :: StateIn(ordered)(p) == ordered[k].state
  {
    forall p | from <= p < to ensures StateOf(ordered, p) == ordered[k].state {
      StateAt(ordered, k, p);
    }
  }

  /** The units of one cell, from the first range that reaches into it on. */
  method CountCell(ordered: seq<StateRange>, first: nat, start: nat, end: nat) returns (counts: seq<nat>)
    requires Ordered(ordered) && first <= |ordered| && start <= end
    requires (first > 0 ==> ordered[first - 1].end <= start) && (first < |ordered| ==> ordered[first].end > start)
    ensures counts == Counts(StateIn(ordered), start, end)
  {
    hide StateIn, Counts, Add, Ordered;
    ghost var state := StateIn(ordered);
    counts := [0, 0, 0, 0];
    NoCounts(state, start);
    var cursor, check := start, first;
    while check < |ordered| && ordered[check].start < end
      invariant first <= check <= |ordered| && start <= cursor <= end && counts == Counts(state, start, cursor)
      invariant check > 0 ==> ordered[check - 1].end <= cursor
      invariant check < |ordered| ==> ordered[check].end > cursor && (check > first ==> ordered[check].start >= cursor)
      invariant check == first ==> cursor == start
      decreases |ordered| - check
    {
      var range := ordered[check];
      RangeFacts(ordered, check);
      var from := if start < range.start then range.start else start;
      var to := if end < range.end then end else range.end;
      if from > cursor {
        GapUnknown(ordered, check, cursor, from);
        CountsOn(state, start, cursor, from, UNKNOWN);
        counts := Add(counts, UNKNOWN, from - cursor);
      }
      RunKnown(ordered, check, from, to);
      CountsOn(state, start, from, to, range.state);
      counts := Add(counts, range.state, to - from);
      cursor := to;
      if range.end > end {
        break;
      }
      check := check + 1;
    }
    if cursor < end {
      GapUnknown(ordered, check, cursor, end);
      CountsOn(state, start, cursor, end, UNKNOWN);
      counts := Add(counts, UNKNOWN, end - cursor);
    }
  }

  lemma NoCounts(state: nat -> nat, a: nat)
    ensures Counts(state, a, a) == [0, 0, 0, 0]
  {
  }

  lemma RangeFacts(ordered: seq<StateRange>, k: nat)
    requires Ordered(ordered) && k < |ordered|
    ensures ordered[k].start < ordered[k].end && ordered[k].state <= BAD
    ensures k + 1 < |ordered| ==> ordered[k].end <= ordered[k + 1].start < ordered[k + 1].end
  {
  }

  // ---- the whole map ----------------------------------------------------------------------------

  /** The whole map from ranges in the order of the library's sort: refused for no units, an invalid
      state or an overlap. */
  method AggregateRanges(all: seq<StateRange>, total: nat, cellCount: nat) returns (r: Option<(seq<Cell>, seq<nat>)>)
    requires total < U64_LIMIT && cellCount <= MAX_CELLS
             && forall i, j | 0 <= i < j < |all| :: all[i].start <= all[j].start
    ensures r.Some? <==> total > 0 && ValidStates(all, total) && NoOverlap(all, total)
    ensures r.Some? ==>
              var (cells, totals) := r.value;
              && |cells| == CellsFor(cellCount, total) && Aggregates(cells, StateIn(all), total, |cells|)
              && totals == Counts(StateIn(all), 0, total)
  {
    hide Counts, Boundary;
    if total == 0 {
      return None;
    }
    var ordered := Normalise(all, total);
    if ordered.None? {
      return None;
    }
    var cells, totals := AggregateOrdered(ordered.value, total, cellCount);
    AggregatesAlike(cells, StateIn(ordered.value), StateIn(all), total, |cells|);
    CountsAgree(StateIn(ordered.value), StateIn(all), 0, total);
    r := Some((cells, totals));
  }

  lemma AggregatesAlike(cells: seq<Cell>, f: nat -> nat, g: nat -> nat, total: nat, count: nat)
    requires count > 0 && Aggregates(cells, f, total, count) && forall p | 0 <= p < total :: f(p) == g(p)
    ensures Aggregates(cells, g, total, count)
  {
    hide Counts, Boundary;
    forall i | 0 <= i < |cells| ensures CellRight(cells[i], g, total, count, i) {
      assert CellRight(cells[i], f, total, count, i);
      BoundariesSplit(total, count, i);
      CountsAgree(f, g, cells[i].start, cells[i].end);
    }
  }

  /** One pass over the cells and one over the ranges. */
  method AggregateOrdered(ordered: seq<StateRange>, total: nat, cellCount: nat) returns (cells: seq<Cell>,
      totals: seq<nat>)
    requires Ordered(ordered) && 0 < total < U64_LIMIT && cellCount <= MAX_CELLS
    ensures |cells| == CellsFor(cellCount, total) && Aggregates(cells, StateIn(ordered), total, |cells|)
    ensures totals == Counts(StateIn(ordered), 0, total)
  {
    hide StateIn, Counts, Boundary, Plus;
    ghost var state := StateIn(ordered);
    var count := CellsFor(cellCount, total);
    cells, totals := [], [0, 0, 0, 0];
    NoCounts(state, 0);
    BoundariesSplit(total, count, 0);
    var index := 0;
    for i := 0 to count
      invariant |cells| == i && Aggregates(cells, state, total, count)
      invariant totals == Counts(state, 0, Boundary(i, total, count))
      invariant index <= |ordered| && (index > 0 ==> ordered[index - 1].end <= Boundary(i, total, count))
    {
      BoundariesSplit(total, count, i);
      var start, _ := CellBoundary(i, total, count);
      var end, _ := CellBoundary(i + 1, total, count);
      while index < |ordered| && ordered[index].end <= start
        invariant index <= |ordered| && (index > 0 ==> ordered[index - 1].end <= start)
      {
        index := index + 1;
      }
      var counts := CountCell(ordered, index, start, end);
      CountsJoin(state, 0, start, end);
      totals := Plus(totals, counts);
      var cell := Cell(start, end, counts);
      assert CellRight(cell, state, total, count, i);
      cells := cells + [cell];
    }
    BoundariesSplit(total, count, 0);
  }

  /** The state a stream gives a unit: unknown past its end and for values it does not know. */
  function StreamState(states: seq<int>): nat -> nat {
    (p: nat) => if p < |states| && 0 <= states[p] <= 3 then states[p] else UNKNOWN
  }

  /** The same from a stream of states, one unit at a time; surplus states are ignored. */
  method AggregateStates(states: seq<int>, total: nat, cellCount: nat) returns (cells: seq<Cell>, totals: seq<nat>)
    ensures |cells| == CellsFor(cellCount, total) && Aggregates(cells, StreamState(states), Units(total), |cells|)
    ensures totals == Counts(StreamState(states), 0, Units(total))
  {
    hide Counts, Boundary, Plus, Add;
    ghost var state := StreamState(states);
    var count := CellsFor(cellCount, total);
    cells, totals := [], [0, 0, 0, 0];
    NoCounts(state, 0);
    BoundariesSplit(Units(total), count, 0);
    var consumed := 0;
    for i := 0 to count
      invariant |cells| == i && Aggregates(cells, state, Units(total), count)
      invariant consumed == Boundary(i, Units(total), count) && totals == Counts(state, 0, consumed)
    {
      BoundariesSplit(Units(total), count, i);
      ScriptSplitsUnits(cellCount, total, i);
      var start, end := Boundary(i, total, count), ScriptEnd(i, total, count);
      var counts := [0, 0, 0, 0];
      NoCounts(state, start);
      while consumed < end
        invariant start <= consumed <= end && counts == Counts(state, start, consumed)
      {
        var unit := if consumed < |states| then states[consumed] else UNKNOWN;
        var known: nat := if 0 <= unit <= 3 then unit else UNKNOWN;
        CountsOn(state, start, consumed, consumed + 1, known);
        counts := Add(counts, known, 1);
        consumed := consumed + 1;
      }
      CountsJoin(state, 0, start, end);
      totals := Plus(totals, counts);
      var cell := Cell(start, end, counts);
      assert CellRight(cell, state, Units(total), count, i);
      cells := cells + [cell];
    }
    BoundariesSplit(Units(total), count, 0);
  }

  // ---- overlays ---------------------------------------------------------------------------------

  /** One for a unit that the ranges cover. */
  function CoverState(ranges: seq<Range>): nat -> nat {
    p => if Covers(ranges, p) then 1 else 0
  }

  function Covered(ranges: seq<Range>, a: nat, b: nat): nat {
    Count(CoverState(ranges), a, b, 1)
  }

  lemma CoveredOn(ranges: seq<Range>, a: nat, b: nat, c: nat, all: bool)
    requires a <= b <= c && forall p | b <= p < c :: Covers(ranges, p) == all
    ensures Covered(ranges, a, c) == Covered(ranges, a, b) + (if all then c - b else 0)
  {
    CountSplits(CoverState(ranges), a, b, c, 1);
    CountRun(CoverState(ranges), b, c, if all then 1 else 0, 1);
  }

  lemma GapUncovered(merged: seq<Range>, check: nat, from: nat, to: nat)
    requires Separated(merged) && check <= |merged| && (check > 0 ==> merged[check - 1].end <= from)
    requires check < |merged| ==> to <= merged[check].start
    ensures forall p | from <= p < to :: !Covers(merged, p)
  {
    forall p | from <= p < to ensures !Covers(merged, p) {
      forall k | 0 <= k < |merged| ensures !In(merged[k], p) {
        if k < check {
          assert k < check - 1 ==> merged[k].end < merged[check - 1].start;
        } else {
          assert k > check ==> merged[check].end < merged[k].start;
        }
      }
    }
  }

  lemma RunCovered(merged: seq<Range>, k: nat, from: nat, to: nat)
    requires k < |merged| && merged[k].start <= from && to <= merged[k].end
    ensures forall p | from <= p < to :: Covers(merged, p)
  {
    forall p | from <= p < to ensures Covers(merged, p) {
      assert In(merged[k], p);
    }
  }

  lemma MergedFacts(merged: seq<Range>, k: nat)
    requires Separated(merged) && k < |merged|
    ensures merged[k].start < merged[k].end
    ensures k + 1 < |merged| ==> merged[k].end < merged[k + 1].start < merged[k + 1].end
  {
  }

  method CoverCell(merged: seq<Range>, first: nat, start: nat, end: nat) returns (overlap: nat)
    requires Separated(merged) && first <= |merged| && start <= end
    requires (first > 0 ==> merged[first - 1].end <= start) && (first < |merged| ==> merged[first].end > start)
    ensures overlap == Covered(merged, start, end)
  {
    hide Covered, Covers, Separated;
    overlap := 0;
    NothingCounted(merged, start);
    ghost var cursor := start;
    var check := first;
    while check < |merged| && merged[check].start < end
      invariant first <= check <= |merged| && start <= cursor <= end && overlap == Covered(merged, start, cursor)
      invariant check > 0 ==> merged[check - 1].end <= cursor
      invariant check < |merged| ==> merged[check].end > cursor && (check > first ==> merged[check].start >= cursor)
      invariant check == first ==> cursor == start
      decreases |merged| - check
    {
      MergedFacts(merged, check);
      var from := if start < merged[check].start then merged[check].start else start;
      var to := if end < merged[check].end then end else merged[check].end;
      if from > cursor {
        GapUncovered(merged, check, cursor, from);
        CoveredOn(merged, start, cursor, from, false);
      }
      RunCovered(merged, check, from, to);
      CoveredOn(merged, start, from, to, true);
      overlap := overlap + (if to > from then to - from else 0);
      cursor := to;
      if merged[check].end > end {
        break;
      }
      check := check + 1;
    }
    if cursor < end {
      GapUncovered(merged, check, cursor, end);
      CoveredOn(merged, start, cursor, end, false);
    }
  }

  lemma NothingCounted(ranges: seq<Range>, a: nat)
    ensures Covered(ranges, a, a) == 0
  {
  }

  /** Overlays ranges on ordered cells: each cell's value is its covered units, at most its used ones. The result is the
      number of all units covered. */
  method OverlayRanges(cells: seq<Cell>, ghost ranges: seq<Range>, all: seq<Range>) returns (fields: seq<nat>,
      total: nat)
    requires multiset(all) == multiset(ranges) && Sorted(all)
    requires forall i | 0 <= i < |cells| :: |cells[i].counts| == 4 && cells[i].start <= cells[i].end
    requires forall i, j | 0 <= i < j < |cells| :: cells[i].end <= cells[j].start
    ensures |fields| == |cells|
    ensures forall i | 0 <= i < |cells| ::
              fields[i]
              == Least(cells[i].counts[USED], Covered(ranges, cells[i].start, cells[i].end))
    ensures forall end: nat | (forall p: nat :: Covers(ranges, p) ==> p < end) ::
              total == Covered(ranges, 0, end) <= end
  {
    hide Covered, Covers, Separated;
    var merged := MergeRanges(ranges, all);
    total := SumLengths(merged);
    SameCovered(merged, ranges);
    fields := [];
    var index := 0;
    for i := 0 to |cells|
      invariant |fields| == i && index <= |merged|
      invariant index > 0 ==> i > 0 && merged[index - 1].end <= cells[i - 1].start
      invariant forall k | 0 <= k < i ::
                  fields[k] == Least(cells[k].counts[USED], Covered(ranges, cells[k].start, cells[k].end))
    {
      while index < |merged| && merged[index].end <= cells[i].start
        invariant index <= |merged| && (index > 0 ==> merged[index - 1].end <= cells[i].start)
      {
        index := index + 1;
      }
      var overlap := CoverCell(merged, index, cells[i].start, cells[i].end);
      fields := fields + [Least(cells[i].counts[USED], overlap)];
    }
    CoveredAtMost(ranges);
  }

  lemma CoveredAtMost(ranges: seq<Range>)
    ensures forall end: nat :: Covered(ranges, 0, end) <= end
  {
  }

  function Least(a: nat, b: nat): nat {
    if a < b then a else b
  }

  lemma SameCovered(a: seq<Range>, b: seq<Range>)
    requires forall p: nat :: Covers(a, p) <==> Covers(b, p)
    ensures forall s, e :: Covered(a, s, e) == Covered(b, s, e)
  {
    forall s, e ensures Covered(a, s, e) == Covered(b, s, e) {
      CountAgrees(CoverState(a), CoverState(b), s, e, 1);
    }
  }

  method SumLengths(merged: seq<Range>) returns (total: nat)
    requires Separated(merged)
    ensures forall end: nat | (forall p: nat :: Covers(merged, p) ==> p < end) :: total == Covered(merged, 0, end)
  {
    hide Covered, Covers, Separated;
    total := 0;
    NothingCounted(merged, 0);
    ghost var cursor: nat := 0;
    for k := 0 to |merged|
      invariant total == Covered(merged, 0, cursor) && (if k == 0 then cursor == 0 else cursor == merged[k - 1].end)
      invariant k < |merged| ==> cursor <= merged[k].start
    {
      MergedFacts(merged, k);
      GapUncovered(merged, k, cursor, merged[k].start);
      CoveredOn(merged, 0, cursor, merged[k].start, false);
      RunCovered(merged, k, merged[k].start, merged[k].end);
      CoveredOn(merged, 0, merged[k].start, merged[k].end, true);
      total := total + (merged[k].end - merged[k].start);
      cursor := merged[k].end;
    }
    forall end: nat | forall p: nat :: Covers(merged, p) ==> p < end ensures total == Covered(merged, 0, end) {
      LastInside(merged, end);
      GapUncovered(merged, |merged|, cursor, end);
      CoveredOn(merged, 0, cursor, end, false);
    }
  }

  lemma LastInside(merged: seq<Range>, end: nat)
    requires Separated(merged) && forall p: nat :: Covers(merged, p) ==> p < end
    ensures merged != [] ==> merged[|merged| - 1].end <= end
  {
    if merged != [] {
      var last := merged[|merged| - 1];
      assert In(last, last.end - 1);
      assert Covers(merged, last.end - 1);
    }
  }
}
