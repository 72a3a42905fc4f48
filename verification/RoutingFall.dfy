/**
 How the quotient of deviation and avgDiviation falls while visitors come, each of which deviates by
 2 / m as the m-th rated request.
 */
module RoutingFall {
  import opened RoutingAnomaly

  lemma Scale(x: real, y: real, k: real)
    requires k > 0.0
    ensures x * k < y * k <==> x < y
  {
  }

  lemma Room(x: real, f: real, p: real, most: real, w: real)
    requires x > 0.0 && most * x == w && p * x * x <= w * (x - f)
    ensures p * x <= w - most * f
  {
    assert (w - most * f) * x == w * (x - f);
    Scale(w - most * f, p * x, x);
  }

  lemma SumBelow(f: real, avg: real, p: real, a: real, b: real, w: real)
    requires avg * f < a && p * f <= b && a + b <= w
    ensures (avg + p) * f < w
  {
    assert (avg + p) * f == avg * f + p * f;
  }

  // The product shrinks from x to f by more than p adds; most is w divided by x.
  lemma FallCore(f: real, x: real, avg: real, p: real, most: real, w: real)
    requires 0.0 < f <= x && p >= 0.0 && avg * x < w && most * x == w && p * x * x <= w * (x - f)
    ensures (avg + p) * f < w
  {
    assert avg * f < most * f by {
      Scale(avg, most, x);
      Scale(avg, most, f);
    }
    assert p * f <= w - most * f by {
      Room(x, f, p, most, w);
      assert p * f <= p * x;
    }
    SumBelow(f, avg, p, most * f, w - most * f, w);
  }

  // x * m, by repeated addition.
  function Area(x: nat, m: nat): nat {
    if x == 0 then 0 else Area(x - 1, m) + m
  }

  lemma {:induction false} AreaIs(x: nat, m: nat)
    ensures Area(x, m) == x * m
    ensures Area(x, m) as real == x as real * m as real
  {
    if x > 0 {
      AreaIs(x - 1, m);
      assert x * m == (x - 1) * m + m;
      assert x as real * m as real == (x - 1) as real * m as real + m as real;
    }
  }

  // The quotient exceeds x exactly when this product stays below 200.
  function Product(x: nat, avg: real, m: nat): real {
    avg * Area(x, m) as real
  }

  lemma Wide(t: nat, m: nat)
    requires t >= 2 && m >= t * (t + 2)
    ensures 0 < Area(t - 1, m + 1) <= Area(t, m)
    ensures 2 * Area(t, t) <= 200 * (Area(t, m) - Area(t - 1, m + 1))
  {
    AreaIs(t, m);
    AreaIs(t - 1, m + 1);
    AreaIs(t, t);
    assert t * (t + 2) == t * t + 2 * t;
    assert t * m - (t - 1) * (m + 1) == m - t + 1;
  }

  lemma LessRoom(y: real, d: real, w: real)
    requires y <= 200.0 * d && d >= 0.0 && w >= 200.0
    ensures y <= w * d
  {
    assert (w - 200.0) * d >= 0.0;
  }

  lemma FallStep(f: real, x: real, avg: real, p: real, y: real, w: real)
    requires 0.0 < f <= x && p >= 0.0 && w >= 200.0 && avg * x < w && p * x * x == y <= 200.0 * (x - f)
    ensures (avg + p) * f < w
  {
    var most := w / x;
    assert most * x == w;
    LessRoom(y, x - f, w);
    FallCore(f, x, avg, p, most, w);
  }

  // What the m-th rated request, a visitor, adds to avgDiviation, times the square of t * m.
  predicate Gain(p: real, t: nat, m: nat) {
    p >= 0.0 && p * Area(t, m) as real * Area(t, m) as real == (2 * Area(t, t)) as real
  }

  lemma VisitGain(t: nat, m: nat, p: real)
    requires m > 0 && p == Per(Per(2.0, m), m)
    ensures Gain(p, t, m)
  {
    var k, x := m as real, t as real;
    assert p * k == Per(2.0, m) && Per(2.0, m) * k == 2.0;
    AreaIs(t, m);
    AreaIs(t, t);
    assert p * (x * k) * (x * k) == (p * k) * k * (x * x);
  }

  lemma FallNat(f: nat, x: nat, y: nat, avg: real, p: real, w: real)
    requires 0 < f <= x && y <= 200 * (x - f) && p >= 0.0 && p * x as real * x as real == y as real
    requires w >= 200.0 && avg * x as real < w
    ensures (avg + p) * f as real < w
  {
    FallStep(f as real, x as real, avg, p, y as real, w);
  }

  lemma LargeFall(t: nat, avg: real, avg': real, m: nat, p: real, w: real)
    requires t >= 1 && 0 < Area(t - 1, m + 1) <= Area(t, m)
    requires 2 * Area(t, t) <= 200 * (Area(t, m) - Area(t - 1, m + 1))
    requires Gain(p, t, m) && avg' == avg + p && w >= 200.0 && Product(t, avg, m) < w
    ensures Product(t - 1, avg', m + 1) < w
  {
    FallNat(Area(t - 1, m + 1), Area(t, m), 2 * Area(t, t), avg, p, w);
  }

  // A quotient above t falls by less than 1.
  lemma SmallFall(t: nat, avg: real, avg': real, m: nat, p: real, w: real)
    requires t >= 1 && m >= t * (t + 2) && Gain(p, t, m) && avg' == avg + p
    requires w >= 200.0 && Product(t, avg, m) < w
    ensures Product(t - 1, avg', m + 1) < w
  {
    if t >= 2 {
      Wide(t, m);
      LargeFall(t, avg, avg', m, p, w);
    }
  }

  lemma QuotientBound(x: nat, avg: real, m: nat, q: real, w: real)
    requires m > 0 && avg > 0.0 && q * (avg * m as real) == w
    ensures q > x as real <==> Product(x, avg, m) < w
  {
    assert avg * m as real > 0.0;
    Scale(x as real, q, avg * m as real);
    AreaIs(x, m);
    assert x as real * (avg * m as real) == avg * (x as real * m as real);
  }

  lemma VisitorQuotient(avg: real, m: nat)
    requires m > 0 && avg > 0.0
    ensures Divide(Per(2.0, m), avg).q * (avg * m as real) == 200.0
  {
    var q, d := Divide(Per(2.0, m), avg).q, Per(2.0, m);
    assert d * m as real == 2.0;
    assert q * (avg / 100.0) == d;
    assert q * (avg * m as real) == q * (avg / 100.0) * m as real * 100.0;
  }

  lemma SmallerFactor(t: nat, m: nat, bound: nat)
    requires Area(t, m) < Area(t, bound)
    ensures m < bound
  {
    AreaIs(t, m);
    AreaIs(t, bound);
    assert m >= bound ==> t * m >= t * bound;
  }

  lemma Growing(t: nat, avg: real, avg': real, m: nat, bound: nat, w: real)
    requires 0.0 < avg <= avg' && Product(t, avg, m) < w <= Product(t, avg, bound)
    ensures m < bound && Product(t, avg', bound) >= w
  {
    NatScale(Area(t, m), Area(t, bound), avg, w);
    SmallerFactor(t, m, bound);
    NatGrows(Area(t, bound), avg, avg', w);
  }

  lemma NatScale(x: nat, y: nat, avg: real, w: real)
    requires avg > 0.0 && avg * x as real < w <= avg * y as real
    ensures x < y
  {
    Scale(x as real, y as real, avg);
  }

  lemma NatGrows(y: nat, avg: real, avg': real, w: real)
    requires avg <= avg' && w <= avg * y as real
    ensures w <= avg' * y as real
  {
    Grows(y as real, avg, avg', w);
  }

  lemma Grows(y: real, a: real, b: real, w: real)
    requires y >= 0.0 && a <= b && w <= a * y
    ensures w <= b * y
  {
    if y > 0.0 { Scale(b, a, y); }
  }

  lemma InverseSquare(n: nat, avg: real)
    requires n > 0 && avg == Per(Per(1.0, n), n)
    ensures avg > 0.0 && avg * Area(n, n) as real == 1.0
  {
    var k := n as real;
    AreaIs(n, n);
    assert Per(1.0, n) * k == 1.0 && avg * k == Per(1.0, n);
    assert avg * (k * k) == (avg * k) * k;
  }

  lemma Areas(t: nat, n: nat, m: nat)
    requires t >= 1 && n >= t * (t + 2)
    ensures Area(t - 1, n + 1) <= Area(n, n) && Area(t, m) >= m
  {
    assert t <= n;
    AreaGrows(t, n, n);
    if t >= 2 { Wide(t, n); }
    AreaGrows(1, t, m);
  }

  // After n requests of which only the last deviated, by 1 / n.
  lemma Beginning(t: nat, n: nat, avg: real)
    requires t >= 1 && n >= t * (t + 2) && n > 0 && avg == Per(Per(1.0, n), n)
    ensures avg > 0.0 && Product(t - 1, avg, n + 1) <= 1.0 && Product(t, avg, 200 * Area(n, n)) >= 200.0
  {
    InverseSquare(n, avg);
    Areas(t, n, 200 * Area(n, n));
    Fraction(avg, Area(t - 1, n + 1), Area(n, n), Area(t, 200 * Area(n, n)));
  }

  lemma Fraction(avg: real, a: nat, square: nat, b: nat)
    requires avg > 0.0 && avg * square as real == 1.0 && a <= square && b >= 200 * square
    ensures avg * a as real <= 1.0 && avg * b as real >= 200.0
  {
    assert avg * (square - a) as real >= 0.0 && avg * (b - 200 * square) as real >= 0.0;
  }

  lemma {:induction false} AreaGrows(x: nat, y: nat, m: nat)
    requires x <= y
    ensures Area(x, m) <= Area(y, m) && Area(1, m) == m
  {
    if x < y { AreaGrows(x, y - 1, m); }
  }
}
