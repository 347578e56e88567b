/** Occurrences of a value in a sequence. */
module Counting {
  import opened Basics

  function Is(b: bool): nat {
    if b then 1 else 0
  }

  function Count<T(==)>(q: seq<T>, x: T): (n: nat)
  {
    if q == [] then 0 else Is(q[0] == x) + Count(q[1..], x)
  }

  lemma {:induction false} CountConcat<T>(a: seq<T>, b: seq<T>, x: T)
    ensures Count(a + b, x) == Count(a, x) + Count(b, x)
  {
    if a == [] {
      assert a + b == b;
    } else {
      assert (a + b)[1..] == a[1..] + b;
      CountConcat(a[1..], b, x);
    }
  }

  lemma CountOne<T>(y: T, x: T)
    ensures Count([y], x) == Is(y == x)
  {
    assert [y][1..] == [];
  }

  /** Adding y at either end. */
  lemma CountAdd<T>(q: seq<T>, y: T, x: T)
    ensures Count(q + [y], x) == Count(q, x) + Is(y == x)
    ensures Count([y] + q, x) == Count(q, x) + Is(y == x)
  {
    CountConcat(q, [y], x);
    CountConcat([y], q, x);
    CountOne(y, x);
  }

  lemma CountWithout<T>(q: seq<T>, k: nat, x: T)
    requires k < |q|
    ensures Count(q, x) == Count(Without(q, k), x) + Is(q[k] == x)
  {
    assert q == q[..k] + ([q[k]] + q[k + 1..]);
    CountConcat(q[..k], [q[k]] + q[k + 1..], x);
    CountAdd(q[k + 1..], q[k], x);
    CountConcat(q[..k], q[k + 1..], x);
  }

  lemma {:induction false} CountPositive<T>(q: seq<T>, k: nat)
    requires k < |q|
    ensures Count(q, q[k]) > 0
  {
    if k > 0 { CountPositive(q[1..], k - 1); }
  }
}
