/** Bitwise operators on unsigned numbers, and what masks and disjoint ors
    amount to in arithmetic. */
module Bits {

  function Pow2(n: nat): (p: nat)
    ensures p >= 1
  {
    if n == 0 then 1 else 2 * Pow2(n - 1)
  }

  function And(x: nat, y: nat): nat {
    if x == 0 || y == 0 then 0 else x % 2 * (y % 2) + 2 * And(x / 2, y / 2)
  }

  function Or(x: nat, y: nat): nat {
    if x == 0 then y else if y == 0 then x else (if x % 2 == 1 || y % 2 == 1 then 1 else 0) + 2 * Or(x / 2, y / 2)
  }

  lemma FourMore(k: nat)
    ensures Pow2(k + 4) == 16 * Pow2(k)
  {
    assert Pow2(k + 2) == 4 * Pow2(k);
  }

  lemma SixteenMore(k: nat)
    ensures Pow2(k + 16) == 0x1_0000 * Pow2(k)
  {
    hide Pow2;
    FourMore(k);
    FourMore(k + 4);
    FourMore(k + 8);
    FourMore(k + 12);
  }

  lemma Halve(x: nat, k: nat)
    requires k > 0
    ensures x % Pow2(k) == x % 2 + 2 * (x / 2 % Pow2(k - 1))
  {
    var p := Pow2(k - 1);
    var q, r := x / 2 / p, x / 2 % p;
    assert x == q * Pow2(k) + (x % 2 + 2 * r) by {
      assert x / 2 == q * p + r;
      assert q * Pow2(k) == 2 * (q * p);
    }
    Remainder(x, Pow2(k), q, x % 2 + 2 * r);
  }

  lemma {:induction false} ProductGap(a: nat, b: nat, d: nat)
    requires a < b
    ensures a * d + d <= b * d
    decreases b
  {
    if a + 1 < b {
      ProductGap(a, b - 1, d);
    }
    OneMoreTime(b - 1, d);
  }

  lemma OneMoreTime(b: nat, d: nat)
    ensures (b + 1) * d == b * d + d
  {
  }

  lemma SameQuotient(d: nat, p: nat, s: nat, q: nat, r: nat)
    requires s < d && r < d && p * d + s == q * d + r
    ensures p == q
  {
    if p < q {
      ProductGap(p, q, d);
    } else if q < p {
      ProductGap(q, p, d);
    }
  }

  lemma Remainder(x: nat, d: nat, q: nat, r: nat)
    requires r < d && x == q * d + r
    ensures x % d == r && x / d == q
  {
    SameQuotient(d, x / d, x % d, q, r);
  }

  lemma {:induction false} AndDoubles(x: nat, y: nat)
    ensures And(x, 2 * y) == 2 * And(x / 2, y)
  {
    assert 2 * y / 2 == y && 2 * y % 2 == 0;
  }

  lemma {:induction false} AndOdd(x: nat, y: nat)
    ensures And(x, 2 * y + 1) == x % 2 + 2 * And(x / 2, y)
  {
    assert (2 * y + 1) / 2 == y && (2 * y + 1) % 2 == 1;
  }

  lemma {:induction false} AndAllOnes(x: nat, n: nat)
    requires x < Pow2(n)
    ensures And(x, Pow2(n) - 1) == x
  {
    if n > 0 {
      hide And;
      AndAllOnes(x / 2, n - 1);
      AndOdd(x, Pow2(n - 1) - 1);
    }
  }

  lemma {:induction false} PowersGrow(k: nat, n: nat)
    requires k <= n
    ensures Pow2(k) <= Pow2(n)
  {
    if k < n {
      PowersGrow(k, n - 1);
    }
  }

  /** Masking with ones above bit `k` clears the lower bits. */
  lemma {:induction false} AndHighMask(x: nat, n: nat, k: nat)
    requires k <= n && x < Pow2(n)
    ensures Pow2(k) <= Pow2(n) && And(x, Pow2(n) - Pow2(k)) == x - x % Pow2(k)
  {
    PowersGrow(k, n);
    if k > 0 {
      hide And;
      AndHighMask(x / 2, n - 1, k - 1);
      Halve(x, k);
      AndDoubles(x, Pow2(n - 1) - Pow2(k - 1));
    } else {
      hide And;
      AndAllOnes(x, n);
    }
  }

  /** Masking with `k` ones keeps the lower bits. */
  lemma {:induction false} AndLowMask(x: nat, k: nat)
    ensures And(x, Pow2(k) - 1) == x % Pow2(k)
  {
    hide And, Pow2;
    if k > 0 {
      Doubles(k);
      AndLowMask(x / 2, k - 1);
      Halve(x, k);
      AndOdd(x, Pow2(k - 1) - 1);
    } else {
      AndNothing(x);
    }
  }

  lemma Doubles(k: nat)
    requires k > 0
    ensures Pow2(k) == 2 * Pow2(k - 1)
  {
  }

  lemma AndNothing(x: nat)
    ensures Pow2(0) == 1 && And(x, 0) == 0
  {
  }

  /** An or of numbers without common bits is their sum. */
  lemma {:induction false} OrDisjoint(x: nat, y: nat, k: nat)
    requires x % Pow2(k) == 0 && y < Pow2(k)
    ensures Or(x, y) == x + y
  {
    if k > 0 {
      Halve(x, k);
      OrDisjoint(x / 2, y / 2, k - 1);
    }
  }
}
