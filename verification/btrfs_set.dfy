/** The open-addressing set of visited tree blocks: a table with linear probing that refines a mathematical set. */
module BtrfsSet {
  import opened Wrappers
  import opened Bytes

  const U64_LIMIT := 0x1_0000_0000_0000_0000

  type u64 = x: int | 0 <= x < U64_LIMIT

  /** The bit mixer that picks a value's first slot. */
  function Mix(value: u64): u64 {
    var v0 := value as bv64;
    var v1 := (v0 ^ (v0 >> 33)) * 0xff51afd7ed558ccd;
    var v2 := (v1 ^ (v1 >> 33)) * 0xc4ceb9fe1a85ec53;
    (v2 ^ (v2 >> 33)) as int
  }

  // ---- masks ------------------------------------------------------------------------------------

  ghost predicate PowerOfTwo(n: nat) {
    exists k: nat :: n == Two(k)
  }

  /** The low bits of a number, one more bit at a time. */
  lemma RemainderDoubles(a: nat, m: nat)
    requires m > 0
    ensures a % (2 * m) == 2 * (a / 2 % m) + a % 2
  {
    var h := a / 2;
    assert 2 * (h / m * m) == h / m * (2 * m);
    Quotient(a, 2 * m, h / m, 2 * (h % m) + a % 2);
  }

  lemma AndStep(a: nat, m: nat)
    requires m > 0
    ensures And(a, 2 * m - 1) == 2 * And(a / 2, m - 1) + a % 2
  {
    var b := 2 * m - 1;
    assert b / 2 == m - 1 && b % 2 == 1;
  }

  /** Masking with a power of two less one is taking the remainder. */
  lemma {:induction false} MaskIsRemainder(a: nat, k: nat)
    ensures Two(k) > 0 && And(a, Two(k) - 1) == a % Two(k)
  {
    hide And;
    TwoPositive(k);
    if k == 0 {
      assert And(a, 0) == 0;
    } else {
      var m := Two(k - 1);
      MaskIsRemainder(a / 2, k - 1);
      AndStep(a, m);
      RemainderDoubles(a, m);
    }
  }

  lemma PowerDoubles(n: nat)
    ensures PowerOfTwo(n) ==> PowerOfTwo(n * 2)
    ensures PowerOfTwo(512) && PowerOfTwo(1024)
  {
    if PowerOfTwo(n) {
      var k: nat :| n == Two(k);
      assert n * 2 == Two(k + 1);
    }
    assert Two(5) == 32;
    assert 512 == Two(9);
    assert 1024 == Two(10);
  }

  /** The first slot probed. */
  function Home(value: u64, capacity: nat): (p: nat)
    requires capacity > 0
    ensures p < capacity
  {
    And(Mix(value), capacity - 1)
  }

  /** The slot after p; with a power of two for capacity the mask goes round the table, one slot at a time. */
  lemma NextSlot(p: nat, capacity: nat)
    requires p < capacity && PowerOfTwo(capacity)
    ensures And(p + 1, capacity - 1) == if p + 1 == capacity then 0 else p + 1
  {
    var k: nat :| capacity == Two(k);
    MaskIsRemainder(p + 1, k);
    Quotient(p + 1, capacity, if p + 1 == capacity then 1 else 0, if p + 1 == capacity then 0 else p + 1);
  }

  // ---- positions on the ring --------------------------------------------------------------------

  /** The slot d places after home. */
  function At(home: nat, d: nat, capacity: nat): (p: nat)
    requires home < capacity && d < capacity
    ensures p < capacity
  {
    if home + d < capacity then home + d else home + d - capacity
  }

  function Distance(home: nat, p: nat, capacity: nat): (d: nat)
    requires home < capacity && p < capacity
    ensures d < capacity && At(home, d, capacity) == p
  {
    if p >= home then p - home else p + capacity - home
  }

  lemma DistanceAt(home: nat, d: nat, capacity: nat)
    requires home < capacity && d < capacity
    ensures Distance(home, At(home, d, capacity), capacity) == d
  {
  }

  // ---- the table --------------------------------------------------------------------------------

  function Members(slots: seq<u64>): (s: set<u64>) {
    set v | v in slots && v != 0
  }

  function Used(slots: seq<u64>): (n: nat)
    ensures n <= |slots|
  {
    if slots == [] then 0 else Used(slots[..|slots| - 1]) + (if slots[|slots| - 1] != 0 then 1 else 0)
  }

  /** Every slot between a value's home and the value is taken. */
  ghost predicate Reachable(slots: seq<u64>, p: nat)
    requires p < |slots|
  {
    var home := Home(slots[p], |slots|);
    forall d | 0 <= d < Distance(home, p, |slots|) :: slots[At(home, d, |slots|)] != 0
  }

  ghost predicate Table(slots: seq<u64>) {
    && (forall p | 0 <= p < |slots| && slots[p] != 0 :: Reachable(slots, p))
    && (forall p, q | 0 <= p < q < |slots| && slots[p] != 0 :: slots[p] != slots[q])
  }

  /** The first d slots from home are taken by other values. */
  ghost predicate Passed(slots: seq<u64>, value: u64, d: nat)
    requires 0 < |slots| && d <= |slots|
  {
    forall e | 0 <= e < d :: slots[At(Home(value, |slots|), e, |slots|)] != 0
        && slots[At(Home(value, |slots|), e, |slots|)] != value
  }

  lemma {:induction false} UsedMore(slots: seq<u64>, p: nat, value: u64)
    requires p < |slots| && slots[p] == 0 && value != 0
    ensures Used(slots[p := value]) == Used(slots) + 1
  {
    var front := slots[..|slots| - 1];
    var after := slots[p := value];
    if p == |slots| - 1 {
      assert after[..|slots| - 1] == front;
    } else {
      UsedMore(front, p, value);
      assert after[..|slots| - 1] == front[p := value];
    }
  }

  lemma {:induction false} AllUsed(slots: seq<u64>)
    requires forall p | 0 <= p < |slots| :: slots[p] != 0
    ensures Used(slots) == |slots|
  {
    if slots != [] {
      AllUsed(slots[..|slots| - 1]);
    }
  }

  /** A probe over a table with a free slot ends before it has gone round. */
  lemma ProbeEnds(slots: seq<u64>, value: u64, d: nat)
    requires 0 < |slots| && d <= |slots| && Passed(slots, value, d) && Used(slots) < |slots|
    ensures d < |slots|
  {
    hide Home;
    if d == |slots| {
      var home := Home(value, |slots|);
      forall p | 0 <= p < |slots| ensures slots[p] != 0 {
        assert slots[At(home, Distance(home, p, |slots|), |slots|)] != 0;
      }
      AllUsed(slots);
    }
  }

  /** A free slot at the end of the probe means that the value is not in the table. */
  lemma ProbeMisses(slots: seq<u64>, value: u64, d: nat)
    requires d < |slots| && value != 0 && Table(slots) && Passed(slots, value, d)
    requires slots[At(Home(value, |slots|), d, |slots|)] == 0
    ensures value !in slots
  {
    hide Home;
    var home := Home(value, |slots|);
    forall p | 0 <= p < |slots| ensures slots[p] != value {
      var e := Distance(home, p, |slots|);
      if e < d {
        assert slots[At(home, e, |slots|)] != value;
      } else if e > d {
        assert slots[p] != 0 ==> Reachable(slots, p);
        assert slots[At(home, d, |slots|)] == 0;
      }
    }
  }

  /** Putting the value into that slot keeps the table and adds just the value. */
  lemma Placed(slots: seq<u64>, value: u64, d: nat)
    requires d < |slots| && value != 0 && value !in slots && Table(slots) && Passed(slots, value, d)
    requires slots[At(Home(value, |slots|), d, |slots|)] == 0
    ensures var after := slots[At(Home(value, |slots|), d, |slots|) := value];
            Table(after) && Members(after) == Members(slots) + {value} && Used(after) == Used(slots) + 1
  {
    hide Home, Mix;
    var home := Home(value, |slots|);
    var at := At(home, d, |slots|);
    var after := slots[at := value];
    UsedMore(slots, at, value);
    forall p | 0 <= p < |after| && after[p] != 0 ensures Reachable(after, p) {
      if p == at {
        DistanceAt(home, d, |slots|);
        forall e | 0 <= e < d ensures after[At(home, e, |slots|)] != 0 {
          assert slots[At(home, e, |slots|)] != 0;
        }
      } else {
        assert Reachable(slots, p);
      }
    }
    MembersMore(slots, at, value);
  }

  lemma MembersMore(slots: seq<u64>, at: nat, value: u64)
    requires at < |slots| && slots[at] == 0 && value != 0
    ensures Members(slots[at := value]) == Members(slots) + {value}
  {
    var after := slots[at := value];
    assert after[at] == value;
    forall v | v in Members(slots) ensures v in after {
      var p :| 0 <= p < |slots| && slots[p] == v;
      assert after[p] == v;
    }
  }

  lemma EmptyTable(slots: seq<u64>)
    requires forall p | 0 <= p < |slots| :: slots[p] == 0
    ensures Table(slots) && Members(slots) == {} && Used(slots) == 0
  {
    if slots != [] {
      EmptyTable(slots[..|slots| - 1]);
    }
  }

  /** The table's value at i is none of those before it. */
  lemma Unseen(slots: seq<u64>, i: nat)
    requires i < |slots| && Table(slots) && slots[i] != 0
    ensures slots[i] !in slots[..i]
  {
    assert forall p | 0 <= p < i :: slots[..i][p] == slots[p] && slots[p] != slots[i];
  }

  lemma PartNext(slots: seq<u64>, i: nat)
    requires i < |slots|
    ensures Used(slots[..i + 1]) == Used(slots[..i]) + (if slots[i] != 0 then 1 else 0)
    ensures Members(slots[..i + 1]) == Members(slots[..i]) + (if slots[i] != 0 then {slots[i]} else {})
  {
    assert slots[..i + 1][..i] == slots[..i];
    assert slots[..i + 1] == slots[..i] + [slots[i]];
  }

  lemma {:induction false} UsedPart(slots: seq<u64>, i: nat)
    requires i <= |slots|
    ensures Used(slots[..i]) <= Used(slots)
    decreases |slots| - i
  {
    if i < |slots| {
      PartNext(slots, i);
      UsedPart(slots, i + 1);
    } else {
      assert slots[..i] == slots;
    }
  }

  lemma SameMembers(a: seq<u64>, b: seq<u64>, value: u64)
    requires Members(a) == Members(b) && value != 0
    ensures value in a <==> value in b
    ensures value in a <==> value in Members(a)
  {
    assert value in a <==> value in Members(a);
    assert value in b <==> value in Members(b);
  }

  /** Looks for a value: found, or the free slot where it belongs. */
  method Probe(slots: array<u64>, value: u64) returns (found: bool, pos: nat)
    requires value != 0 && Table(slots[..]) && Used(slots[..]) < slots.Length && PowerOfTwo(slots.Length)
    ensures found == (value in slots[..])
    ensures pos < slots.Length
    ensures !found ==> var after := slots[..][pos := value];
            Table(after) && Members(after) == Members(slots[..]) + {value} && Used(after) == Used(slots[..]) + 1
  {
    hide Table, Members, Home, Used, PowerOfTwo, And;
    ghost var home := Home(value, slots.Length);
    ghost var d := 0;
    pos := Home(value, slots.Length);
    while slots[pos] != 0
      invariant d < slots.Length && pos == At(home, d, slots.Length) && Passed(slots[..], value, d)
      decreases slots.Length - d
    {
      if slots[pos] == value {
        return true, pos;
      }
      assert Passed(slots[..], value, d + 1);
      ProbeEnds(slots[..], value, d + 1);
      d := d + 1;
      NextSlot(pos, slots.Length);
      pos := And(pos + 1, slots.Length - 1);
    }
    ProbeMisses(slots[..], value, d);
    Placed(slots[..], value, d);
    found := false;
  }

  /** The free slot for a value known to be new; the moved values are not compared. */
  method FirstFree(slots: array<u64>, value: u64) returns (pos: nat)
    requires value != 0 && Table(slots[..]) && Used(slots[..]) < slots.Length && PowerOfTwo(slots.Length)
             && value !in slots[..]
    ensures pos < slots.Length
    ensures var after := slots[..][pos := value];
            Table(after) && Members(after) == Members(slots[..]) + {value} && Used(after) == Used(slots[..]) + 1
  {
    hide Table, Members, Home, Used, PowerOfTwo, And;
    ghost var home := Home(value, slots.Length);
    ghost var d := 0;
    pos := Home(value, slots.Length);
    while slots[pos] != 0
      invariant d < slots.Length && pos == At(home, d, slots.Length) && Passed(slots[..], value, d)
      decreases slots.Length - d
    {
      assert slots[..][pos] in slots[..];
      assert Passed(slots[..], value, d + 1);
      ProbeEnds(slots[..], value, d + 1);
      d := d + 1;
      NextSlot(pos, slots.Length);
      pos := And(pos + 1, slots.Length - 1);
    }
    Placed(slots[..], value, d);
  }

  // ---- the set ----------------------------------------------------------------------------------

  const SIZE_MAX := 0xffff_ffff_ffff_ffff

  class U64Set {
    var slots: array<u64>
    var count: nat

    ghost predicate Valid()
      reads this, slots
    {
      && Table(slots[..]) && count == Used(slots[..])
      && (slots.Length > 0 ==> count * 10 < slots.Length * 7 && PowerOfTwo(slots.Length))
      && (slots.Length <= 1024 || slots.Length * 7 <= (count + 1) * 20)
    }

    ghost function Contents(): set<u64>
      reads this, slots
    {
      Members(slots[..])
    }

    constructor ()
      ensures Valid() && Contents() == {} && count == 0 && fresh(slots)
    {
      slots := new u64[0];
      count := 0;
    }

    /** Moves every value to a larger, empty table. */
    method Rehash(capacity: nat)
      requires Valid() && capacity > slots.Length && count < capacity && PowerOfTwo(capacity)
      modifies this`slots
      ensures fresh(slots) && slots.Length == capacity
      ensures Table(slots[..]) && count == Used(slots[..]) && Contents() == old(Contents())
    {
      hide Table, Members, Used, Reachable, Home, PowerOfTwo, And;
      var bigger := new u64[capacity](_ => 0);
      EmptyTable(bigger[..]);
      EmptyTable([]);
      for i := 0 to slots.Length
        invariant bigger.Length == capacity && fresh(bigger) && slots == old(slots) && slots[..] == old(slots[..])
        invariant Table(bigger[..]) && Members(bigger[..]) == Members(slots[..i])
        invariant Used(bigger[..]) == Used(slots[..i])
      {
        var value := slots[i];
        PartNext(slots[..], i);
        assert slots[..][..i] == slots[..i] && slots[..][..i + 1] == slots[..i + 1];
        if value != 0 {
          Unseen(slots[..], i);
          UsedPart(slots[..], i);
          SameMembers(bigger[..], slots[..i], value);
          var pos := FirstFree(bigger, value);
          ghost var before := bigger[..];
          bigger[pos] := value;
          assert bigger[..] == before[pos := value];
        }
      }
      assert slots[..slots.Length] == slots[..];
      slots := bigger;
    }

    /** Adds a value; inserted says whether it is new. Zero is refused, and a table that cannot grow. */
    method Insert(value: u64) returns (inserted: Result<bool>)
      requires Valid()
      modifies this, slots
      ensures Valid() && (slots == old(slots) || fresh(slots))
      ensures inserted.Err? <==>
                value == 0
                || (old((count + 1) * 10 >= slots.Length * 7) && old(slots.Length) > SIZE_MAX / 2)
      ensures inserted.Err? ==> Contents() == old(Contents())
      ensures inserted.Ok? ==>
                (inserted.value <==> value !in old(Contents()))
                && Contents() == old(Contents()) + {value}
      ensures old(count) <= 0x1000_0000_0000 ==> (inserted.Err? <==> value == 0)
      ensures inserted.Ok? ==> count == old(count) + (if inserted.value then 1 else 0)
    {
      hide Table, Members, Reachable, Home, Used, PowerOfTwo, And;
      if value == 0 {
        return Err("invalid zero Btrfs tree pointer");
      }
      if slots.Length == 0 {
        PowerDoubles(512);
        Rehash(1024);
      }
      if (count + 1) * 10 >= slots.Length * 7 {
        if slots.Length > SIZE_MAX / 2 {
          return Err("out of memory tracking Btrfs tree blocks");
        }
        PowerDoubles(slots.Length);
        Rehash(slots.Length * 2);
      }
      SameMembers(slots[..], slots[..], value);
      var found, pos := Probe(slots, value);
      if found {
        assert Contents() + {value} == Contents();
        return Ok(false);
      }
      ghost var before := slots[..];
      slots[pos] := value;
      assert slots[..] == before[pos := value];
      count := count + 1;
      inserted := Ok(true);
    }
  }
}
