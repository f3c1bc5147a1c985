/** Powers of two, and multiples. */
module Powers {

  function Pow2(n: nat): (p: nat)
    ensures p > 0
  {
    if n == 0 then 1 else 2 * Pow2(n - 1)
  }

  lemma {:induction false} PowProduct(a: nat, b: nat)
    ensures Pow2(a) * Pow2(b) == Pow2(a + b)
  {
    if a > 0 {
      PowProduct(a - 1, b);
      Twice(Pow2(a - 1), Pow2(b));
    }
  }

  lemma Twice(p: nat, q: nat)
    ensures (2 * p) * q == 2 * (p * q)
  {
  }

  lemma PowerValues()
    ensures Pow2(6) == 64 && Pow2(9) == 512 && Pow2(15) == 0x8000 && Pow2(16) == 0x1_0000
    ensures Pow2(32) == 0x1_0000_0000 && Pow2(64) == 0x1_0000_0000_0000_0000
  {
    assert Pow2(6) == 64;
    assert Pow2(9) == 8 * Pow2(6);
    assert Pow2(12) == 8 * Pow2(9);
    assert Pow2(15) == 8 * Pow2(12);
    PowProduct(16, 16);
    PowProduct(32, 32);
  }

  // m divides a.
  ghost predicate Multiple(a: nat, m: nat) { m > 0 && exists q: nat :: Times(q, m) == a }

  ghost function Times(q: nat, m: nat): nat { q * m }

  lemma MultipleOf(q: nat, m: nat)
    requires m > 0
    ensures Multiple(q * m, m)
  {
    assert Times(q, m) == q * m;
  }

  lemma MultipleSum(a: nat, b: nat, m: nat)
    requires Multiple(a, m) && Multiple(b, m)
    ensures Multiple(a + b, m)
  {
    var p: nat :| Times(p, m) == a;
    var q: nat :| Times(q, m) == b;
    assert Times(p + q, m) == a + b;
  }

  lemma MultipleOfMultiple(a: nat, b: nat, m: nat)
    requires Multiple(a, b) && Multiple(b, m)
    ensures Multiple(a, m)
  {
    var p: nat :| Times(p, b) == a;
    var q: nat :| Times(q, m) == b;
    Assoc(p, q, m);
    assert Times(p * q, m) == a;
  }

  lemma Assoc(p: nat, q: nat, m: nat)
    ensures p * (q * m) == (p * q) * m
  {
  }

  lemma Remainder(a: nat, m: nat)
    requires m > 0
    ensures Multiple(a - a % m, m)
    ensures a < m ==> a - a % m == 0
  {
    assert Times(a / m, m) == a - a % m;
  }

  lemma NoRemainder(a: nat, m: nat)
    requires Multiple(a, m)
    ensures a % m == 0 && a - a % m == a
  {
    var q: nat :| Times(q, m) == a;
    var k, r := a / m, a % m;
    assert a == k * m + r;
    if k != q { Differ(k, q, m); }
  }

  lemma Split(a: nat, b: nat, m: nat)
    ensures (a + b) * m == a * m + b * m
  {
  }

  lemma AtLeast(t: nat, m: nat)
    requires t > 0
    ensures m <= t * m
  {
  }

  lemma Differ(k: nat, q: nat, m: nat)
    requires k != q && m > 0
    ensures k < q ==> k * m + m <= q * m
    ensures q < k ==> q * m + m <= k * m
  {
    if k < q {
      Split(k, q - k, m);
      AtLeast(q - k, m);
    } else {
      Split(q, k - q, m);
      AtLeast(k - q, m);
    }
  }

  lemma MultipleDifference(a: nat, b: nat, m: nat)
    requires Multiple(a, m) && Multiple(b, m) && b <= a
    ensures Multiple(a - b, m)
  {
    var p: nat :| Times(p, m) == a;
    var q: nat :| Times(q, m) == b;
    if p != q { Differ(p, q, m); }
    assert Times(p - q, m) == a - b;
  }

  /** Multiples below a multiple stay a step away from it. */
  lemma MultipleFits(a: nat, top: nat, m: nat)
    requires Multiple(a, m) && Multiple(top, m) && a < top
    ensures a + m <= top
  {
    var p: nat :| Times(p, m) == a;
    var q: nat :| Times(q, m) == top;
    if p != q { Differ(p, q, m); }
  }

  lemma {:induction false} PowMultiple(a: nat, b: nat)
    requires b <= a
    ensures Multiple(Pow2(a), Pow2(b))
  {
    PowProduct(a - b, b);
    MultipleOf(Pow2(a - b), Pow2(b));
  }
}
