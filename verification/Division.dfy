/** Division of natural numbers, as far as queues that rotate and numbers cut into groups need it. */
module Division {

  lemma DivModStep(k: nat, n: nat)
    requires 0 < n
    ensures k % n + 1 < n ==> (k + 1) % n == k % n + 1 && (k + 1) / n == k / n
    ensures k % n + 1 == n ==> (k + 1) % n == 0 && (k + 1) / n == k / n + 1
  {
    var q, r := k / n, k % n;
    assert k == q * n + r;
    if r + 1 < n {
      DivModUnique(k + 1, n, q, r + 1);
    } else {
      assert k + 1 == (q + 1) * n;
      DivModUnique(k + 1, n, q + 1, 0);
    }
  }

  lemma DivModUnique(k: nat, n: nat, q: nat, r: nat)
    requires 0 < n && r < n && k == q * n + r
    ensures k / n == q && k % n == r
  {
    var d := k / n - q;
    assert d * n == r - k % n;
    Multiple(d, n);
  }

  lemma Multiple(d: int, n: nat)
    ensures d >= 1 ==> d * n >= n
    ensures d <= -1 ==> d * n + n <= 0
  {
  }

  lemma Euclid(n: nat, d: nat)
    requires d > 0
    ensures n == (n / d) * d + n % d
  {
  }

  /** Numbers put together from groups of groups. */
  lemma Regroup(a: nat, b: nat, q: nat, s: nat, r: nat)
    ensures (q * b + s) * a + r == q * (a * b) + (s * a + r)
  {
    assert (q * b + s) * a == (q * b) * a + s * a;
    Associate(q, b, a);
  }

  lemma Associate(x: nat, y: nat, z: nat)
    ensures (x * y) * z == x * (z * y)
  {
  }

  lemma Below(a: nat, b: nat, s: nat, r: nat)
    requires s < b && r < a
    ensures s * a + r < a * b
  {
    Multiple(b - s, a);
    assert (b - s) * a == b * a - s * a;
  }

  lemma Positive(a: nat, b: nat)
    requires a > 0 && b > 0
    ensures a * b > 0
  {
    Multiple(a, b);
  }

  lemma DivideTwice(n: nat, a: nat, b: nat)
    requires a > 0 && b > 0
    ensures a * b > 0 && n / a / b == n / (a * b)
  {
    var q := n / a;
    Euclid(n, a);
    Euclid(q, b);
    Positive(a, b);
    Recompose(n, a, b, q, n % a, q / b, q % b);
  }

  lemma Recompose(n: nat, a: nat, b: nat, q: nat, r: nat, q': nat, s: nat)
    requires r < a && s < b && n == q * a + r && q == q' * b + s && a * b > 0
    ensures n / (a * b) == q'
  {
    Regroup(a, b, q', s, r);
    Below(a, b, s, r);
    DivModUnique(n, a * b, q', s * a + r);
  }
}
