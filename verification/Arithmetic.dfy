/** Remainders, with the quotient named. */
module Arithmetic {

  lemma SmallMod(a: nat, m: nat)
    requires a < m
    ensures a % m == a
  {
  }

  lemma SelfMod(m: nat)
    requires m > 0
    ensures m % m == 0
  {
  }

  lemma Multiples(k: nat, m: nat)
    requires k >= 1
    ensures k * m >= m
  {
  }

  lemma ModOf(a: int, q: int, r: nat, m: nat)
    requires m > 0 && r < m && a == q * m + r
    ensures a % m == r
  {
    var q', r' := a / m, a % m;
    assert a == q' * m + r';
    if q' < q {
      assert (q - q') * m >= m by { Multiples(q - q', m); }
      assert false;
    }
    if q' > q {
      assert (q' - q) * m >= m by { Multiples(q' - q, m); }
      assert false;
    }
  }

  lemma StepMod(a: nat, m: nat)
    requires m > 0
    ensures (a % m + 1) % m == (a + 1) % m
  {
    var q, r := a / m, a % m;
    assert a == q * m + r;
    if r + 1 < m {
      ModOf(a + 1, q, r + 1, m);
      SmallMod(r + 1, m);
    } else {
      assert (q + 1) * m == q * m + m;
      ModOf(a + 1, q + 1, 0, m);
      SelfMod(m);
    }
  }

  lemma DistinctMods(a: nat, b: nat, m: nat)
    requires a < b < a + m
    ensures a % m != b % m
  {
    if a % m == b % m {
      var k := b / m - a / m;
      assert a == a / m * m + a % m && b == b / m * m + b % m;
      assert b - a == k * m;
      if k >= 1 {
        Multiples(k, m);
      } else {
        Multiples(1 - k, m);
      }
      assert false;
    }
  }

  /** Sums and products may be reduced first. */
  lemma ModMul(a: int, b: int, m: nat)
    requires m > 0
    ensures (a % m) * b % m == a * b % m
  {
    var q, r := a / m, a % m;
    assert a == q * m + r;
    var s, t := r * b / m, r * b % m;
    assert r * b == s * m + t;
    assert a * b == (q * b + s) * m + t by {
      assert a * b == (q * m) * b + r * b;
      assert (q * m) * b == (q * b) * m;
    }
    ModOf(a * b, q * b + s, t, m);
  }

  /** Rounding up by division gives the least multiple that is large enough. */
  lemma RoundUp(x: nat, m: nat, other: nat)
    requires m > 0
    ensures var r := (x + m - 1) / m * m;
            x <= r < x + m && r % m == 0 && (other >= x && other % m == 0 ==> r <= other)
  {
    var q, t := (x + m - 1) / m, (x + m - 1) % m;
    assert x + m - 1 == q * m + t;
    ModOf(q * m, q, 0, m);
    if other >= x && other % m == 0 {
      var k := other / m;
      assert other == k * m;
      if k < q {
        assert (q - k) * m >= m by { Multiples(q - k, m); }
      }
    }
  }
}
