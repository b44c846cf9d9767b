/** Half-open ranges of units: what they cover, and the one sorted list without overlap that covers it. */
module Intervals {

  datatype Range = Range(start: nat, end: nat)

  predicate In(r: Range, p: nat) {
    r.start <= p < r.end
  }

  predicate Covers(ranges: seq<Range>, p: nat) {
    exists i :: 0 <= i < |ranges| && In(ranges[i], p)
  }

  /** Non-empty ranges in ascending order with a gap between any two. */
  predicate Separated(ranges: seq<Range>) {
    && (forall i | 0 <= i < |ranges| :: ranges[i].start < ranges[i].end)
    && (forall i, j | 0 <= i < j < |ranges| :: ranges[i].end < ranges[j].start)
  }

  predicate Sorted(ranges: seq<Range>) {
    forall i, j | 0 <= i < j < |ranges| :: ranges[i].start <= ranges[j].start
  }

  lemma CoversMore(ranges: seq<Range>, r: Range, p: nat)
    ensures Covers(ranges + [r], p) <==> Covers(ranges, p) || In(r, p)
  {
    var more := ranges + [r];
    if Covers(ranges, p) {
      var i :| 0 <= i < |ranges| && In(ranges[i], p);
      assert In(more[i], p);
    }
    if In(r, p) {
      assert In(more[|ranges|], p);
    }
  }

  /** What a list covers decides a separated list: two of them covering the same units are equal. */
  lemma {:induction false} SeparatedUnique(a: seq<Range>, b: seq<Range>)
    requires Separated(a) && Separated(b) && forall p: nat :: Covers(a, p) <==> Covers(b, p)
    ensures a == b
  {
    if a != [] && b != [] {
      FirstSame(a, b);
      FirstSame(b, a);
      var ra, rb := a[1..], b[1..];
      forall p: nat ensures Covers(ra, p) <==> Covers(rb, p) {
        Tail(a, p);
        Tail(b, p);
        assert Covers(a, p) <==> Covers(b, p);
      }
      SeparatedUnique(ra, rb);
      assert a == [a[0]] + ra && b == [b[0]] + rb;
    } else {
      FirstCovered(a);
      FirstCovered(b);
    }
  }

  lemma FirstCovered(a: seq<Range>)
    requires Separated(a)
    ensures a != [] ==> Covers(a, a[0].start)
    ensures a == [] ==> forall p: nat :: !Covers(a, p)
  {
    if a != [] {
      assert In(a[0], a[0].start);
    }
  }

  lemma Tail(a: seq<Range>, p: nat)
    requires Separated(a) && a != []
    ensures Covers(a[1..], p) <==> Covers(a, p) && !In(a[0], p)
    ensures Separated(a[1..])
  {
    if Covers(a, p) && !In(a[0], p) {
      var i :| 0 <= i < |a| && In(a[i], p);
      assert In(a[1..][i - 1], p);
    }
    if Covers(a[1..], p) {
      var i :| 0 <= i < |a| - 1 && In(a[1..][i], p);
      assert In(a[i + 1], p);
    }
  }

  lemma FirstSame(a: seq<Range>, b: seq<Range>)
    requires Separated(a) && Separated(b) && a != [] && b != [] && forall p: nat :: Covers(a, p) <==> Covers(b, p)
    ensures b[0].start <= a[0].start
    ensures a[0].start == b[0].start ==> a[0].end <= b[0].end
  {
    assert In(a[0], a[0].start);
    assert Covers(a, a[0].start);
    if a[0].start == b[0].start && b[0].end < a[0].end {
      assert In(a[0], b[0].end) && Covers(a, b[0].end);
      NotAtEnd(b);
    }
  }

  lemma NotAtEnd(b: seq<Range>)
    requires Separated(b) && b != []
    ensures !Covers(b, b[0].end)
  {
  }

  // ---- merging ----------------------------------------------------------------------------------

  /** One range more: dropped when empty, joined to the last when it overlaps or touches it. */
  function Join(merged: seq<Range>, r: Range): seq<Range> {
    if r.end <= r.start then merged
    else if merged != [] && r.start <= merged[|merged| - 1].end then
      merged[..|merged| - 1] + [Range(merged[|merged| - 1].start, Larger(merged[|merged| - 1].end, r.end))]
    else merged + [r]
  }

  function Larger(a: nat, b: nat): nat {
    if a < b then b else a
  }

  function Merged(all: seq<Range>): (m: seq<Range>)
    ensures |m| <= |all|
  {
    if all == [] then [] else Join(Merged(all[..|all| - 1]), all[|all| - 1])
  }

  lemma JoinCovers(merged: seq<Range>, r: Range, p: nat)
    requires Separated(merged) && (merged != [] ==> merged[|merged| - 1].start <= r.start)
    ensures Covers(Join(merged, r), p) <==> Covers(merged, p) || In(r, p)
  {
    var more := Join(merged, r);
    CoversMore(merged, r, p);
    if merged != [] && r.end > r.start && r.start <= merged[|merged| - 1].end {
      var front, last := merged[..|merged| - 1], merged[|merged| - 1];
      assert merged == front + [last];
      CoversMore(front, last, p);
      CoversMore(front, more[|merged| - 1], p);
    }
  }

  lemma NothingCovered()
    ensures forall p: nat :: !Covers([], p)
  {
  }

  lemma JoinSeparated(merged: seq<Range>, r: Range)
    requires Separated(merged) && (merged != [] ==> merged[|merged| - 1].start <= r.start)
    ensures Separated(Join(merged, r))
    ensures Join(merged, r) != [] ==> Join(merged, r)[|Join(merged, r)| - 1].start <= r.start
  {
    var next := Join(merged, r);
    if r.end > r.start {
      var n := |next| - 1;
      assert forall k | 0 <= k < n :: next[k] == merged[k];
      assert next[n].start < next[n].end;
      forall k | 0 <= k < n ensures merged[k].end < next[n].start {
        if n == |merged| {
          assert k < |merged| - 1 ==> merged[k].end < merged[|merged| - 1].start;
        } else {
          assert next[n].start == merged[n].start;
        }
      }
    }
  }

  /** Merging a sorted list gives the separated list of what it covers. */
  lemma {:induction false} MergedRight(all: seq<Range>)
    requires Sorted(all)
    ensures Separated(Merged(all))
    ensures Merged(all) != [] ==> Merged(all)[|Merged(all)| - 1].start <= all[|all| - 1].start
    ensures forall p: nat :: Covers(Merged(all), p) <==> Covers(all, p)
  {
    hide Join, Covers, In;
    if all == [] {
      NothingCovered();
    } else {
      var front, last := all[..|all| - 1], all[|all| - 1];
      MergedRight(front);
      assert front != [] ==> front[|front| - 1].start <= last.start;
      JoinSeparated(Merged(front), last);
      assert all == front + [last];
      forall p: nat ensures Covers(Merged(all), p) <==> Covers(all, p) {
        JoinCovers(Merged(front), last, p);
        CoversMore(front, last, p);
      }
    }
  }

  /** All ways of merging agree: there is only one separated list for what some ranges cover. */
  lemma MergingUnique(ranges: seq<Range>, a: seq<Range>, b: seq<Range>)
    requires Separated(a) && (forall p: nat :: Covers(a, p) <==> Covers(ranges, p))
    requires Separated(b) && (forall p: nat :: Covers(b, p) <==> Covers(ranges, p))
    ensures a == b
  {
    hide Separated, Covers;
    SeparatedUnique(a, b);
  }

  /** Merges a sorted array of ranges in place; the first n elements are the result. A lone range is left as it is, so
      that the result is separated unless that one is empty. */
  method MergeInPlace(items: array<Range>, count: nat) returns (n: nat)
    requires count <= items.Length && Sorted(items[..count])
    modifies items
    ensures n <= count && forall p: nat :: Covers(items[..n], p) <==> Covers(old(items[..count]), p)
    ensures Separated(items[..n]) <==> !(count == 1 && old(items[0]).end <= old(items[0]).start)
    ensures count == 1 ==> n == 1 && items[0] == old(items[0])
    ensures forall k | count <= k < items.Length :: items[k] == old(items[k])
  {
    hide Sorted, Separated, Covers, Join, Merged;
    ghost var all := items[..count];
    MergedRight(all);
    MergedNone();
    if count < 2 {
      LoneSeparated(all);
      return count;
    }
    n := 0;
    assert all[..0] == [] && items[..0] == [];
    for i := 0 to count
      invariant n <= i && forall k | i <= k < items.Length :: items[k] == old(items[k])
      invariant items[..n] == Merged(all[..i])
    {
      MergedNext(all, i);
      n := JoinAt(items, n, items[i]);
    }
    assert all[..count] == all;
  }

  lemma LoneSeparated(all: seq<Range>)
    requires |all| < 2
    ensures Separated(all) <==> !(|all| == 1 && all[0].end <= all[0].start)
  {
  }

  lemma MergedNone()
    ensures Merged([]) == []
  {
  }

  lemma MergedNext(all: seq<Range>, i: nat)
    requires i < |all|
    ensures Merged(all[..i + 1]) == Join(Merged(all[..i]), all[i])
  {
    assert all[..i + 1][..i] == all[..i];
  }

  method JoinAt(items: array<Range>, n: nat, current: Range) returns (m: nat)
    requires n < items.Length
    modifies items
    ensures m <= n + 1 && items[..m] == Join(old(items[..n]), current)
    ensures forall k | n < k < items.Length :: items[k] == old(items[k])
  {
    m := n;
    if current.end > current.start {
      if n != 0 && current.start <= items[n - 1].end {
        ghost var front := items[..n - 1];
        if current.end > items[n - 1].end {
          items[n - 1] := Range(items[n - 1].start, current.end);
        }
        assert items[..n] == front + [items[n - 1]];
      } else {
        items[n] := current;
        m := n + 1;
        assert items[..n + 1] == old(items[..n]) + [current];
      }
    }
  }

  /** Merges overlapping or adjacent ranges; empty ones vanish. all is the order the library's sort has put them in. */
  method MergeRanges(ghost ranges: seq<Range>, all: seq<Range>) returns (merged: seq<Range>)
    requires multiset(all) == multiset(ranges) && Sorted(all)
    ensures Separated(merged)
    ensures forall p: nat :: Covers(merged, p) <==> Covers(ranges, p)
  {
    hide Covers, In, Separated, Sorted;
    merged := [];
    for i := 0 to |all|
      invariant merged == Merged(all[..i])
    {
      var range := all[i];
      assert all[..i + 1][..i] == all[..i];
      if range.end > range.start {
        if merged != [] && range.start <= merged[|merged| - 1].end {
          var last := merged[|merged| - 1];
          merged := merged[..|merged| - 1] + [Range(last.start, if last.end < range.end then range.end else last.end)];
        } else {
          merged := merged + [range];
        }
      }
    }
    assert all[..|all|] == all;
    MergedRight(all);
    forall p: nat ensures Covers(merged, p) <==> Covers(ranges, p) {
      SameCover(all, ranges, p);
      SameCover(ranges, all, p);
    }
  }

  lemma SameCover(a: seq<Range>, b: seq<Range>, p: nat)
    requires multiset(a) == multiset(b)
    ensures Covers(a, p) ==> Covers(b, p)
  {
    if Covers(a, p) {
      var i :| 0 <= i < |a| && In(a[i], p);
      assert a[i] in multiset(b);
      assert a[i] in b;
      var j :| 0 <= j < |b| && b[j] == a[i];
    }
  }

  /** The gaps below total that no range covers. */
  method ComplementRanges(total: nat, ghost occupied: seq<Range>, all: seq<Range>) returns (gaps: seq<Range>)
    requires multiset(all) == multiset(occupied) && Sorted(all)
    ensures Separated(gaps)
    ensures forall p: nat :: Covers(gaps, p) <==> p < total && !Covers(occupied, p)
  {
    var merged := MergeRanges(occupied, all);
    gaps := [];
    var cursor: nat := 0;
    for i := 0 to |merged|
      invariant Gaps(total, merged, i, cursor, gaps) && (i > 0 ==> cursor < total)
    {
      var start := if merged[i].start < total then merged[i].start else total;
      var end := if merged[i].end < total then merged[i].end else total;
      GapNext(total, merged, i, cursor, gaps);
      if start > cursor {
        gaps := gaps + [Range(cursor, start)];
      }
      cursor := if cursor < end then end else cursor;
      if cursor >= total {
        break;
      }
    }
    if cursor < total {
      GapLast(total, merged, cursor, gaps);
      gaps := gaps + [Range(cursor, total)];
    }
  }

  /** The state after the first i ranges: the gaps below cursor are the uncovered units there. */
  ghost predicate Gaps(total: nat, merged: seq<Range>, i: nat, cursor: nat, gaps: seq<Range>)
    requires i <= |merged|
  {
    && cursor <= total && Separated(gaps)
    && (gaps != [] ==> gaps[|gaps| - 1].end <= cursor && (cursor < total ==> gaps[|gaps| - 1].end < cursor))
    && (i > 0 ==> if merged[i - 1].end < total then cursor == merged[i - 1].end else cursor == total)
    && (i == 0 ==> cursor == 0 && gaps == [])
    && forall p: nat :: Covers(gaps, p) <==> p < cursor && !Covers(merged, p)
  }

  lemma GapNext(total: nat, merged: seq<Range>, i: nat, cursor: nat, gaps: seq<Range>)
    requires Separated(merged) && i < |merged| && Gaps(total, merged, i, cursor, gaps) && (i > 0 ==> cursor < total)
    ensures var start := if merged[i].start < total then merged[i].start else total;
            var end := if merged[i].end < total then merged[i].end else total;
            Gaps(total, merged, i + 1, if cursor < end then end else cursor, if start > cursor
                then gaps + [Range(cursor, start)] else gaps)
  {
    var start := if merged[i].start < total then merged[i].start else total;
    var end := if merged[i].end < total then merged[i].end else total;
    var next := if cursor < end then end else cursor;
    var more := if start > cursor then gaps + [Range(cursor, start)] else gaps;
    forall p: nat ensures Covers(more, p) <==> p < next && !Covers(merged, p) {
      CoversMore(gaps, Range(cursor, start), p);
      if p >= cursor {
        Between(merged, i, cursor, p);
      }
    }
  }

  lemma GapLast(total: nat, merged: seq<Range>, cursor: nat, gaps: seq<Range>)
    requires Separated(merged) && Gaps(total, merged, |merged|, cursor, gaps) && cursor < total
    ensures Separated(gaps + [Range(cursor, total)])
    ensures forall p: nat :: Covers(gaps + [Range(cursor, total)], p) <==> p < total && !Covers(merged, p)
  {
    forall p: nat ensures Covers(gaps + [Range(cursor, total)], p) <==> p < total && !Covers(merged, p) {
      CoversMore(gaps, Range(cursor, total), p);
      if p >= cursor {
        Above(merged, cursor, p);
      }
    }
  }

  /** Between the end of one separated range and the start of the next nothing is covered; inside the next all is. */
  lemma Between(merged: seq<Range>, i: nat, cursor: nat, p: nat)
    requires Separated(merged) && i < |merged| && (i > 0 ==> cursor >= merged[i - 1].end) && cursor <= p
    ensures p < merged[i].start ==> !Covers(merged, p)
    ensures In(merged[i], p) ==> Covers(merged, p)
  {
    if p < merged[i].start {
      forall j | 0 <= j < |merged| ensures !In(merged[j], p) {
        if j < i {
          assert merged[j].end <= merged[i - 1].end;
        } else if j > i {
          assert merged[i].end < merged[j].start;
        }
      }
    }
  }

  lemma Above(merged: seq<Range>, cursor: nat, p: nat)
    requires Separated(merged) && cursor <= p && (merged != [] ==> merged[|merged| - 1].end <= cursor)
    ensures !Covers(merged, p)
  {
    forall j | 0 <= j < |merged| ensures !In(merged[j], p) {
      if j < |merged| - 1 {
        assert merged[j].end < merged[|merged| - 1].start;
      }
    }
  }
}
