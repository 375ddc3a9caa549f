/** Quotients and remainders by a variable divisor. */
module Arithmetic {

  lemma MulMono(a: nat, b: nat, n: nat)
    requires a <= b
    ensures a * n <= b * n
  {
  }

  lemma Euclid(t: nat, n: nat)
    requires n > 0
    ensures t == (t / n) * n + t % n
  {
  }

  lemma QuotientOrder(a: nat, b: nat, r: nat, n: nat)
    requires n > 0
    ensures a <= b <==> a * n + r <= b * n + r
    ensures a == b <==> a * n + r == b * n + r
  {
    if a < b {
      MulMono(a + 1, b, n);
      assert (a + 1) * n == a * n + n;
    } else if b < a {
      MulMono(b + 1, a, n);
      assert (b + 1) * n == b * n + n;
    }
  }

  lemma UniqueQuotient(q: int, r: int, s: int, i: int, n: nat)
    requires q * n + r == s * n + i && 0 <= r < n && 0 <= i < n
    ensures q == s && r == i
  {
    var d := q - s;
    assert d * n == i - r;
    assert (-d) * n == r - i;
    if d > 0 {
      MulMono(1, d, n);
    } else if d < 0 {
      MulMono(1, -d, n);
    }
  }

  lemma DivMod(s: nat, n: nat, i: nat)
    requires i < n
    ensures (s * n + i) / n == s && (s * n + i) % n == i
  {
    var x := s * n + i;
    assert x == (x / n) * n + x % n;
    UniqueQuotient(x / n, x % n, s, i, n);
  }

  lemma QuotientBound(s: nat, a: int, n: nat)
    requires n > 0
    ensures s <= a / n <==> s * n <= a
  {
    var q := a / n;
    assert a == q * n + a % n;
    if s <= q {
      MulMono(s, q, n);
    } else if q >= 0 {
      MulMono(q + 1, s, n);
      assert (q + 1) * n == q * n + n;
    } else {
      MulMono(1, -q, n);
      MulMono(0, s, n);
      assert (-q) * n == -(q * n);
    }
  }

  lemma QuotientIff(t: nat, n: nat, q: nat, r: nat)
    requires r < n
    ensures t == q * n + r <==> t / n == q && t % n == r
  {
    DivMod(q, n, r);
    assert t == (t / n) * n + t % n;
  }
}
