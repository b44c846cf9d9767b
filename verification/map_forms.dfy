/** One map in three forms: ranges, a bitmap and a stream of states give the same cells. */
module MapForms {
  import opened Bytes
  import opened MapUnits
  import opened MapCells
  import opened MapBitmap

  /** The stream of the states of all units. */
  function Expanded(state: nat -> nat, total: nat): seq<int> {
    seq(total, p requires 0 <= p < total => state(p))
  }

  lemma ExpandedReads(state: nat -> nat, total: nat)
    requires forall p: nat | p < total :: state(p) <= BAD
    ensures forall p: nat | p < total :: StreamState(Expanded(state, total))(p) == state(p)
  {
  }

  lemma {:induction false} StatesValid(all: seq<StateRange>, total: nat, p: nat)
    requires ValidStates(all, total) && p < total
    ensures StateOf(all, p) <= BAD
  {
    if all != [] {
      var front := all[..|all| - 1];
      if Holds(all[|all| - 1], p) {
        assert Lasting(all[|all| - 1], total);
      } else {
        assert forall i | 0 <= i < |front| :: front[i] == all[i];
        StatesValid(front, total, p);
      }
    }
  }

  /** The map made from ranges is the one made from the stream of their units. */
  lemma RangesAsStream(all: seq<StateRange>, total: nat, count: nat, a: seq<Cell>, b: seq<Cell>)
    requires total > 0 && count > 0 && ValidStates(all, total) && |a| == |b|
    requires Aggregates(a, StateIn(all), total, count)
    requires Aggregates(b, StreamState(Expanded(StateIn(all), total)), Units(total), count)
    ensures a == b
  {
    hide Aggregates, StateOf, ValidStates;
    forall p: nat | p < total ensures StateIn(all)(p) <= BAD {
      StatesValid(all, total, p);
    }
    ExpandedReads(StateIn(all), total);
    FormsAgree(a, StateIn(all), b, StreamState(Expanded(StateIn(all), total)), total, count);
  }

  /** The map made from a bitmap is the one made from the stream of its units. */
  lemma BitmapAsStream(bitmap: seq<byte>, reserved: nat, total: nat, count: nat, a: seq<Cell>, b: seq<Cell>)
    requires count > 0 && |a| == |b|
    requires Aggregates(a, BitmapState(bitmap, reserved), Units(total), count)
    requires Aggregates(b, StreamState(Expanded(BitmapState(bitmap, reserved), Units(total))), Units(total), count)
    ensures a == b
  {
    hide Aggregates;
    var state := BitmapState(bitmap, reserved);
    ExpandedReads(state, Units(total));
    FormsAgree(a, state, b, StreamState(Expanded(state, Units(total))), Units(total), count);
  }

  // ---- what the counts are ----------------------------------------------------------------------

  /** Behind the reserved prefix, and its bit is set. */
  predicate MarkedUsed(bitmap: seq<byte>, reserved: nat, p: nat) {
    reserved <= p && (p - reserved) / 8 < |bitmap| && Bit(bitmap[(p - reserved) / 8], (p - reserved) % 8)
  }

  /** Over all units: as many used ones as bits are set behind the reserved prefix, as many unknown ones as the prefix
      has units, no bad ones, and the rest free. */
  lemma BitmapTotals(bitmap: seq<byte>, reserved: nat, total: nat)
    ensures var used := |set p: nat | p < total && MarkedUsed(bitmap, reserved, p)|;
            var unknown := if reserved < total then reserved else total;
            Counts(BitmapState(bitmap, reserved), 0, total) == [total - unknown - used, used, unknown, 0]
  {
    hide BitmapState, MarkedUsed;
    UsedTotal(bitmap, reserved, total);
    UnknownTotal(bitmap, reserved, total);
    StatesKnown(bitmap, reserved, total);
    CountsTotal(BitmapState(bitmap, reserved), 0, total);
  }

  lemma UsedTotal(bitmap: seq<byte>, reserved: nat, total: nat)
    ensures Count(BitmapState(bitmap, reserved), 0, total, USED)
            == |set p: nat | p < total && MarkedUsed(bitmap, reserved, p)|
  {
    hide BitmapState, MarkedUsed;
    var state := BitmapState(bitmap, reserved);
    CountIsSize(state, 0, total, USED);
    forall p: nat ensures state(p) == USED <==> MarkedUsed(bitmap, reserved, p) {
      StateIsMarked(bitmap, reserved, p);
    }
    assert (set p: nat | 0 <= p < total && state(p) == USED)
        == (set p: nat | p < total && MarkedUsed(bitmap, reserved, p));
  }

  lemma StatesKnown(bitmap: seq<byte>, reserved: nat, total: nat)
    ensures forall p: nat | p < total :: BitmapState(bitmap, reserved)(p) <= BAD
  {
    hide BitmapState;
    forall p: nat ensures BitmapState(bitmap, reserved)(p) <= BAD {
      StateIsMarked(bitmap, reserved, p);
    }
  }

  lemma UnknownTotal(bitmap: seq<byte>, reserved: nat, total: nat)
    ensures Count(BitmapState(bitmap, reserved), 0, total, UNKNOWN) == if reserved < total then reserved else total
    ensures Count(BitmapState(bitmap, reserved), 0, total, BAD) == 0
  {
    hide BitmapState;
    var state := BitmapState(bitmap, reserved);
    var unknown := if reserved < total then reserved else total;
    forall p: nat
      ensures p < reserved ==> state(p) == UNKNOWN
      ensures p >= reserved ==> state(p) <= USED
    {
      StateIsMarked(bitmap, reserved, p);
    }
    CountSplits(state, 0, unknown, total, UNKNOWN);
    CountRun(state, 0, unknown, UNKNOWN, UNKNOWN);
    NoneIn(state, unknown, total, UNKNOWN);
    NoneIn(state, 0, total, BAD);
  }

  lemma StateIsMarked(bitmap: seq<byte>, reserved: nat, p: nat)
    ensures BitmapState(bitmap, reserved)(p) == USED <==> MarkedUsed(bitmap, reserved, p)
    ensures p >= reserved ==> BitmapState(bitmap, reserved)(p) <= USED
    ensures p < reserved ==> BitmapState(bitmap, reserved)(p) == UNKNOWN
  {
    if p >= reserved {
      var q: nat := p - reserved;
      assert BitState(bitmap)(q) == if q / 8 < |bitmap| && Bit(bitmap[q / 8], q % 8) then 1 else 0;
    }
  }

  lemma NoneIn(state: nat -> nat, a: nat, b: nat, s: nat)
    requires forall p: nat | a <= p < b :: state(p) != s
    ensures Count(state, a, b, s) == 0
  {
    CountIsSize(state, a, b, s);
    assert (set p: nat | a <= p < b && state(p) == s) == {};
  }

  /** A stream gives as many free, used and bad units as it says so of; all others are unknown. */
  lemma StreamTotals(states: seq<int>, total: nat)
    ensures var c := Counts(StreamState(states), 0, total);
            && (forall s | s == FREE || s == USED || s == BAD ::
                  c[s] == |set p: nat | p < total && p < |states| && states[p] == s|)
            && c[UNKNOWN] == total - c[FREE] - c[USED] - c[BAD]
  {
    var state := StreamState(states);
    forall s: nat | s == FREE || s == USED || s == BAD
      ensures Count(state, 0, total, s) == |set p: nat | p < total && p < |states| && states[p] == s|
    {
      CountIsSize(state, 0, total, s);
      assert (set p: nat | 0 <= p < total && state(p) == s)
          == (set p: nat | p < total && p < |states| && states[p] == s);
    }
    CountsTotal(state, 0, total);
  }
}
