/** What an entry set says, read off its bytes: the stream extension's fields, and the name gathered from the name
    entries. */
module ExfatNames {
  import opened Bytes
  import opened Checksum
  import opened ExfatDirectory
  import opened Wrappers

  predicate IsName(set_: seq<byte>, e: nat) {
    ENTRY * e < |set_| && set_[ENTRY * e] == NAME_ENTRY
  }

  /** How many of the secondary entries before entry e are name entries. */
  function NamesBefore(set_: seq<byte>, e: nat): nat {
    if e <= 1 then 0 else NamesBefore(set_, e - 1) + (if IsName(set_, e - 1) then 1 else 0)
  }

  /** Entry e is the j-th name entry of the set, counted from zero. */
  predicate NthName(set_: seq<byte>, n: nat, e: nat, j: nat) {
    1 <= e < n && IsName(set_, e) && NamesBefore(set_, e) == j
  }

  /** The stream extension of a set. */
  predicate IsStream(set_: seq<byte>, n: nat, e: nat) {
    1 <= e < n && ENTRY * e < |set_| && set_[ENTRY * e] == STREAM_ENTRY
  }

  lemma {:induction false} NamesGrow(set_: seq<byte>, a: nat, b: nat)
    requires 1 <= a <= b
    ensures NamesBefore(set_, a) <= NamesBefore(set_, b)
    ensures a < b && IsName(set_, a) ==> NamesBefore(set_, a) < NamesBefore(set_, b)
  {
    if a + 1 < b {
      NamesGrow(set_, a, b - 1);
    }
  }

  /** There is one. */
  lemma NthIsOne(set_: seq<byte>, n: nat, e: nat, f: nat, j: nat)
    requires NthName(set_, n, e, j) && NthName(set_, n, f, j)
    ensures e == f
  {
    if e < f { NamesGrow(set_, e, f); } else if f < e { NamesGrow(set_, f, e); }
  }

  lemma {:induction false} FindNth(set_: seq<byte>, n: nat, m: nat, j: nat) returns (e: nat)
    requires 1 <= m <= n && j < NamesBefore(set_, m)
    ensures NthName(set_, n, e, j)
  {
    if j < NamesBefore(set_, m - 1) {
      e := FindNth(set_, n, m - 1, j);
    } else {
      e := m - 1;
    }
  }

  /** The scan keeps the name it has, and appends thirty bytes a name entry. */
  lemma {:induction false} NameKept(set_: seq<byte>, n: nat, i: nat, acc: Secondary)
    requires |set_| == ENTRY * n && 1 <= i <= n && Secondaries(set_, n, i, acc).Some?
    ensures var name := Secondaries(set_, n, i, acc).value.name;
            acc.name <= name && |name| == |acc.name| + 30 * (NamesBefore(set_, n) - NamesBefore(set_, i))
    decreases n - i
  {
    if i < n {
      var so := ENTRY * i;
      if set_[so] == STREAM_ENTRY {
        NameKept(set_, n, i + 1, acc.(stream := Some(so), nameLength := set_[so + 3]));
      } else if set_[so] == NAME_ENTRY {
        NameKept(set_, n, i + 1, acc.(name := acc.name + set_[so + 2..so + 32]));
      } else {
        NameKept(set_, n, i + 1, acc);
      }
    }
  }

  /** Where the bytes of name entry e stand. */
  function NamePlace(set_: seq<byte>, i: nat, e: nat, b: nat): int {
    30 * (NamesBefore(set_, e) - NamesBefore(set_, i)) + b
  }

  lemma {:induction false} NameAt(set_: seq<byte>, n: nat, i: nat, acc: Secondary, e: nat, b: nat)
    requires |set_| == ENTRY * n && 1 <= i <= e < n && Secondaries(set_, n, i, acc).Some?
    requires IsName(set_, e) && b < 30
    ensures var name := Secondaries(set_, n, i, acc).value.name; var p := |acc.name| + NamePlace(set_, i, e, b);
            0 <= p < |name| && name[p] == set_[ENTRY * e + 2 + b]
    decreases n - i
  {
    var so := ENTRY * i;
    var next := acc.(name := acc.name + set_[so + 2..so + 32]);
    if e == i {
      NameKept(set_, n, i + 1, next);
      assert next.name[|acc.name| + b] == set_[so + 2 + b];
    } else if set_[so] == STREAM_ENTRY {
      NameAt(set_, n, i + 1, acc.(stream := Some(so), nameLength := set_[so + 3]), e, b);
    } else if set_[so] == NAME_ENTRY {
      NameAt(set_, n, i + 1, next, e, b);
    } else {
      NameAt(set_, n, i + 1, acc, e, b);
    }
  }

  lemma StreamIsFirst(set_: seq<byte>, n: nat, i: nat, e: nat)
    requires |set_| == ENTRY * n && 1 <= i <= e && IsStream(set_, n, e) && CountType(set_, n, i, STREAM_ENTRY) == 1
    ensures FirstStream(set_, n, i) == Some(ENTRY * e)
    decreases n - i
  {
    if set_[ENTRY * i] == STREAM_ENTRY {
      if i < e {
        CountedAt(set_, n, i + 1, e);
      }
    } else {
      StreamIsFirst(set_, n, i + 1, e);
    }
  }

  lemma {:induction false} CountedAt(set_: seq<byte>, n: nat, i: nat, e: nat)
    requires |set_| == ENTRY * n && 1 <= i <= e && IsStream(set_, n, e)
    ensures CountType(set_, n, i, STREAM_ENTRY) >= 1
    decreases n - i
  {
    if i < e { CountedAt(set_, n, i + 1, e); }
  }

  /** An accepted set has one stream extension, whose fields are the set's; its attribute word says whether it is a
      directory; byte k of its name is byte 2 + k % 30 of the (k / 30)-th name entry, for twice as many k as the stream
      extension counts characters. */
  lemma ReadSetMeans(set_: seq<byte>, n: nat)
    requires n >= 2 && |set_| == ENTRY * n && ReadSet(set_, n).Ok?
    ensures var es := ReadSet(set_, n).value;
            && es.count == n && (es.directory <==> Bit(U16(set_, 4), 4))
            && (exists e: nat :: IsStream(set_, n, e))
            && (forall e: nat | IsStream(set_, n, e) ::
                  && es.stream == ENTRY * e && |es.name| == 2 * set_[ENTRY * e + 3] as int
                  && es.first == U32(set_, ENTRY * e + 20) && es.valid == U64(set_, ENTRY * e + 8)
                  && es.length == U64(set_, ENTRY * e + 24) && (es.noFat <==> Bit(set_[ENTRY * e + 1], 1)))
            && (forall k | 0 <= k < |es.name| :: NameByte(set_, n, k, es.name[k]))
  {
    hide U32, U64, U16, Bit, EntrySum;
    var es := ReadSet(set_, n).value;
    SecondariesExact(set_, n, 1, NoSecondary);
    SecondariesStream(set_, n, 1, NoSecondary);
    var t := FirstStream(set_, n, 1).value;
    assert IsStream(set_, n, t / ENTRY);
    forall e: nat | IsStream(set_, n, e) ensures t == ENTRY * e {
      StreamIsFirst(set_, n, 1, e);
    }
    forall k | 0 <= k < |es.name| ensures NameByte(set_, n, k, es.name[k]) {
      NameKept(set_, n, 1, NoSecondary);
      var e := FindNth(set_, n, n, k / 30);
      NameAt(set_, n, 1, NoSecondary, e, k % 30);
    }
  }

  /** Byte k of the name. */
  ghost predicate NameByte(set_: seq<byte>, n: nat, k: nat, x: byte)
    requires |set_| == ENTRY * n
  {
    exists e: nat :: NthName(set_, n, e, k / 30) && x == set_[ENTRY * e + 2 + k % 30]
  }
}
