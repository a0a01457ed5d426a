/** Integer quotients: multiples of a width, and n items cut into almost equal groups. */
module Quotients {
  lemma ProductNonNegative(a: nat, b: nat)
    ensures a * b >= 0
  {
  }

  lemma FloorWindow(x: int, w: int)
    requires w > 0
    ensures x / w * w <= x < x / w * w + w && x / w * w / w == x / w
  {
    assert x == w * (x / w) + x % w;
    var y := w * (x / w);
    assert y == w * (y / w) + y % w;
    assert w * (y / w - x / w) == -(y % w);
    if y / w != x / w { SignedMultiple(y / w - x / w, w); }
  }

  lemma SignedMultiple(k: int, w: int)
    requires w > 0 && k != 0
    ensures k * w >= w || k * w <= -w
  {
    if k > 0 { ProductNonNegative(k - 1, w); } else { ProductNonNegative(-k - 1, w); }
  }

  lemma MultipleMod(k: int, w: int)
    requires w > 0
    ensures k * w % w == 0
  {
    var x := k * w;
    FloorWindow(x, w);
    Gap(k, x / w, w);
    Gap(x / w, k, w);
  }

  lemma QuotientOrder(x: int, y: int, w: int)
    requires w > 0
    ensures x / w > y / w ==> x > y
  {
    FloorWindow(x, w);
    FloorWindow(y, w);
    if x / w > y / w {
      var k := x / w - y / w;
      assert k * w == x / w * w - y / w * w;
      ProductNonNegative(k - 1, w);
    }
  }

  lemma FloorOrder(x: int, y: int, w: int)
    requires w > 0 && x <= y
    ensures x / w * w <= y / w * w
  {
    QuotientOrder(x, y, w);
    if x / w <= y / w { ProductNonNegative(y / w - x / w, w); }
  }

  lemma Expand(q: int, r: int, w: int)
    ensures (q - r - 1) * w == q * w - r * w - w
  {
  }

  lemma Gap(q: int, r: int, w: int)
    requires w > 0
    ensures r < q ==> q * w >= r * w + w
  {
    Expand(q, r, w);
    if r < q { ProductNonNegative(q - r - 1, w); }
  }

  lemma QuotientAtLeast(x: int, q: int, w: int)
    requires w > 0 && x >= q * w
    ensures x / w >= q
  {
    FloorWindow(x, w);
    Gap(q, x / w, w);
  }

  // ----- almost equal groups -----

  /** The boundary of group i when n points are cut into `limit` groups. */
  function Cut(i: nat, n: nat, limit: nat): nat
    requires limit > 0
  {
    i * n / limit
  }

  lemma CutStep(i: nat, n: nat, limit: nat)
    requires 0 < limit <= n
    ensures Cut(i, n, limit) < Cut(i + 1, n, limit)
  {
    var x := i * n;
    assert (i + 1) * n == x + n;
    FloorWindow(x, limit);
    FloorWindow(x + n, limit);
    QuotientOrder(x + n, x, limit);
    var q := x / limit;
    assert (q + 1) * limit == q * limit + limit;
    QuotientAtLeast(x + n, q + 1, limit);
  }

  lemma CutEnds(n: nat, limit: nat)
    requires limit > 0
    ensures Cut(0, n, limit) == 0 && Cut(limit, n, limit) == n
  {
    QuotientAtLeast(limit * n, n, limit);
    FloorWindow(limit * n, limit);
    Gap(limit * n / limit, n, limit);
  }

  /** Group boundaries: strictly increasing, so every group has a member. */
  lemma {:induction false} CutOrder(i: nat, j: nat, n: nat, limit: nat)
    requires 0 < limit <= n && i < j
    ensures Cut(i, n, limit) < Cut(j, n, limit)
    decreases j - i
  {
    CutStep(i, n, limit);
    if i + 1 < j { CutOrder(i + 1, j, n, limit); }
  }

  /** Adding n raises a quotient by n's own quotient, or by one more. */
  lemma QuotientStep(x: int, n: int, w: int)
    requires w > 0
    ensures x / w + n / w <= (x + n) / w <= x / w + n / w + 1
  {
    var a, b, c := x / w, n / w, (x + n) / w;
    FloorWindow(x, w);
    FloorWindow(n, w);
    FloorWindow(x + n, w);
    SumTimes(a, b, w);
    QuotientAtLeast(x + n, a + b, w);
    Gap(c, a + b + 1, w);
  }

  lemma SumTimes(a: int, b: int, w: int)
    ensures (a + b) * w == a * w + b * w && (a + b + 1) * w == a * w + b * w + w
  {
  }

  /** All groups have the same size up to one. */
  lemma CutsEven(i: nat, j: nat, n: nat, limit: nat)
    requires limit > 0
    ensures n / limit <= Cut(i + 1, n, limit) - Cut(i, n, limit) <= n / limit + 1
    ensures Cut(i + 1, n, limit) - Cut(i, n, limit) <= Cut(j + 1, n, limit) - Cut(j, n, limit) + 1
  {
    assert (i + 1) * n == i * n + n && (j + 1) * n == j * n + n;
    QuotientStep(i * n, n, limit);
    QuotientStep(j * n, n, limit);
  }
}
