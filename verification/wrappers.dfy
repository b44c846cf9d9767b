/** Vocabulary the models share. */
module Wrappers {
  datatype Option<+T> = None | Some(value: T)

  datatype Result<+T> = Ok(value: T) | Err(reason: string)

  /** The n numbers starting at t. */
  function Run(t: nat, n: nat): (r: seq<nat>)
    ensures |r| == n
    ensures forall i | 0 <= i < n :: r[i] == t + i
  {
    seq(n, i => t + i)
  }

  predicate NoRepeats(s: seq<nat>) {
    forall i, j | 0 <= i < j < |s| :: s[i] != s[j]
  }

  /** Quotient and remainder are the only ones. */
  lemma Quotient(n: nat, d: nat, q: nat, r: nat)
    requires d > 0 && n == q * d + r && r < d
    ensures n / d == q && n % d == r
  {
    var q', r' := n / d, n % d;
    assert (q - q') * d == r' - r;
    AtLeast(q - q', d);
    AtLeast(q' - q, d);
    assert (q' - q) * d == -((q - q') * d);
  }

  lemma AtLeast(a: int, b: nat)
    ensures a >= 1 ==> a * b >= b
  {
  }
}
