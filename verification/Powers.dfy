/** Powers of two, and numbers cut in two at a power. */
module Powers {

  function Pow2(n: nat): (p: nat)
    ensures p > 0
  {
    if n == 0 then 1 else 2 * Pow2(n - 1)
  }

  lemma Pow2Next(n: nat)
    ensures Pow2(n + 1) == 2 * Pow2(n)
  {
  }

  lemma {:induction false} Pow2Sum(a: nat, b: nat)
    ensures Pow2(a + b) == Pow2(a) * Pow2(b)
  {
    if a > 0 {
      hide Pow2;
      Pow2Next(a - 1);
      Pow2Next(a - 1 + b);
      Pow2Sum(a - 1, b);
      Associate(2, Pow2(a - 1), Pow2(b));
    }
  }

  lemma {:induction false} Pow2Grows(a: nat, b: nat)
    requires a <= b
    ensures Pow2(a) <= Pow2(b)
  {
    if b > 0 {
      Pow2Grows(if a == b then a - 1 else a, b - 1);
    }
  }

  lemma Doubled(n: nat, a: nat, b: nat)
    requires 2 * a <= b
    ensures Pow2(n + 1) * a <= Pow2(n) * b
  {
    Pow2Next(n);
    Associate(Pow2(n), 2, a);
    ProductGrows(Pow2(n), 2 * a, b);
  }

  lemma ProductGrows(p: nat, a: nat, b: nat)
    requires a <= b
    ensures p * a <= p * b
  {
  }

  lemma Distribute(a: int, b: int, p: int)
    ensures (a + b) * p == a * p + b * p && (a - b) * p == a * p - b * p
  {
  }

  lemma Associate(a: int, p: int, q: int)
    ensures a * p * q == a * (p * q) && a * p * q == a * q * p
  {
  }

  /** Quotient and remainder are what they have to be. */
  lemma Quotient(a: int, m: int, q: int, r: int)
    requires a == q * m + r && 0 <= r < m
    ensures a / m == q && a % m == r
  {
    var d := a / m - q;
    assert d * m == r - a % m;
    assert d >= 1 ==> d * m >= m;
    assert d <= -1 ==> d * m <= -m;
  }

  lemma Recompose(x: nat, a: nat, b: nat)
    requires a > 0 && b > 0
    ensures x == (x / a / b * b + x / a % b) * a + x % a
  {
    var y := x / a;
    assert y == y / b * b + y % b;
    assert x == y * a + x % a;
  }

  lemma ReadOff(w: nat, a: nat, b: nat, h: nat, v: nat, low: nat)
    requires w == (h * b + v) * a + low && v < b && low < a
    ensures w / a == h * b + v && w / a / b == h && w / a % b == v && w % a == low
  {
    Quotient(w, a, h * b + v, low);
    Quotient(h * b + v, b, h, v);
  }

  /** Exchanging the middle part of a number. */
  lemma Exchange(x: nat, a: nat, b: nat, v: nat)
    requires a > 0 && b > v
    ensures var w := x - x / a % b * a + v * a;
            && w == (x / a / b * b + v) * a + x % a >= 0
            && w / a % b == v && w / a / b == x / a / b && w % a == x % a
  {
    var h, m, low := x / a / b, x / a % b, x % a;
    Recompose(x, a, b);
    Substitute(h * b, m, low, a, v);
    NotNegative(h, b);
    NotNegative(h * b + v, a);
    ReadOff((h * b + v) * a + low, a, b, h, v, low);
  }

  lemma Substitute(y: int, m: int, low: int, a: int, v: int)
    ensures (y + m) * a + low - m * a + v * a == (y + v) * a + low
  {
    Distribute(y, m, a);
    Distribute(y, v, a);
  }

  lemma NotNegative(a: nat, b: nat)
    ensures a * b >= 0
  {
  }

  /** Cutting at m and then at n is cutting at m * n. */
  lemma CutTwice(a: nat, m: nat, n: nat)
    requires m > 0 && n > 0
    ensures m * n > 0
    ensures a / (m * n) == a / m / n
    ensures a % (m * n) == a / m % n * m + a % m
  {
    var q, r := a / m / n, a / m % n;
    Distribute(q * n, r, m);
    Associate(q, n, m);
    RemainderFits(r, a % m, m, n);
    Quotient(a, m * n, q, r * m + a % m);
  }

  lemma RemainderFits(r: nat, low: nat, m: nat, n: nat)
    requires r < n && low < m
    ensures 0 <= r * m + low < m * n
  {
    assert r * m <= (n - 1) * m;
  }

  lemma SplitRemainder(y: nat, m: nat, n: nat, mn: nat)
    requires m > 0 && n > 0 && mn == m * n
    ensures mn > 0 && y % mn == y / m % n * m + y % m
  {
    CutTwice(y, m, n);
  }

  lemma QuotientBound(b: nat, p: nat, q: nat)
    requires p > 0 && b < p * q
    ensures b / p < q && b / p % q == b / p
  {
    var d := b / p;
    assert d >= q ==> d * p >= q * p;
    Quotient(d, q, 0, d);
  }
}
