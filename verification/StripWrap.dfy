/** The third minwrap of poly_link in mapconvert.py: along a strip of wall that goes around the map in the
    direction of a vector w, take the multiple of w away that leaves the least. */
module StripWrap {
  import opened BlockMap
  import opened NearestPair

  /** Python's round: to the nearest integer, away from zero if there are two. */
  function Round(x: real): int {
    if x >= 0.0 then (x + 0.5).Floor else -((0.5 - x).Floor)
  }

  function Dot(u: Vec, v: Vec): int {
    u.dx * v.dx + u.dy * v.dy
  }

  function Minused(v: Vec, k: int, w: Vec): Vec {
    Vec(v.dx - k * w.dx, v.dy - k * w.dy)
  }

  /** How many times w is taken away from v. */
  function Times(v: Vec, w: Vec): int
    requires Sq(w) != 0
  {
    Round(Dot(w, v) as real / Sq(w) as real)
  }

  function Strip(w: Vec): Vec -> Vec
    requires Sq(w) != 0
  {
    (v: Vec) => Minused(v, Times(v, w), w)
  }

  lemma SqPositive(w: Vec)
    requires w != Vec(0, 0)
    ensures 0 < Sq(w)
  {
    SqSize(w);
    if w.dx != 0 {
      assert 0 < Abs(w.dx) * Abs(w.dx);
    } else {
      assert 0 < Abs(w.dy) * Abs(w.dy);
    }
  }

  /** Rounding a quotient leaves at most half of the divisor. */
  lemma RoundedQuotient(p: int, n: int)
    requires 0 < n
    ensures var k := Round(p as real / n as real); -n <= 2 * (p - k * n) <= n
  {
    hide Round;
    var x := p as real / n as real;
    var k := Round(x);
    RoundClose(x);
    Remainder(x, p, n, k);
    ScaleDown(x - k as real, n, (p - k * n) as real);
  }

  lemma RoundClose(x: real)
    ensures -0.5 <= x - Round(x) as real <= 0.5
  {
  }

  lemma Remainder(x: real, p: int, n: int, k: int)
    requires 0 < n && x == p as real / n as real
    ensures (x - k as real) * n as real == (p - k * n) as real
  {
    assert x * n as real == p as real;
    assert (k * n) as real == k as real * n as real;
  }

  lemma ScaleDown(x: real, n: int, y: real)
    requires -0.5 <= x <= 0.5 && 0 < n && y == x * n as real
    ensures -(n as real) <= 2.0 * y <= n as real
  {
    Scale(n as real, -0.5, x);
    Scale(n as real, x, 0.5);
  }

  /** The square of v minus m times w. */
  lemma SqMinused(v: Vec, m: int, w: Vec)
    ensures Sq(Minused(v, m, w)) == Sq(v) - 2 * (m * Dot(w, v)) + m * m * Sq(w)
  {
    SqDiff(v.dx, m, w.dx);
    SqDiff(v.dy, m, w.dy);
    assert m * Dot(w, v) == m * (w.dx * v.dx) + m * (w.dy * v.dy);
    assert m * m * Sq(w) == m * m * (w.dx * w.dx) + m * m * (w.dy * w.dy);
  }

  lemma SqDiff(a: int, m: int, b: int)
    ensures (a - m * b) * (a - m * b) == a * a - 2 * (m * (b * a)) + m * m * (b * b)
  {
    assert (m * b) * (m * b) == m * m * (b * b);
    assert a * (m * b) == m * (b * a);
    Expand(a, m * b);
  }

  /** A parabola over the integers has its least value next to its top. */
  lemma LeastMultiple(p: int, n: int, k: int, m: int)
    requires 0 < n && -n <= 2 * (p - k * n) <= n
    ensures k * k * n - 2 * (k * p) <= m * m * n - 2 * (m * p)
  {
    var j := m - k;
    var r := p - k * n;
    Difference(p, n, k, m);
    assert m * m * n - 2 * (m * p) - (k * k * n - 2 * (k * p)) == j * (j * n - 2 * r);
    SameSign(j, n, r);
  }

  lemma Difference(p: int, n: int, k: int, m: int)
    ensures m * m * n - 2 * (m * p) - (k * k * n - 2 * (k * p)) == (m - k) * ((m - k) * n - 2 * (p - k * n))
  {
    var j := m - k;
    assert m == j + k;
    assert m * m * n == j * j * n + 2 * (j * k * n) + k * k * n;
    assert m * p == j * p + k * p;
    assert j * (j * n - 2 * (p - k * n)) == j * j * n - 2 * (j * p) + 2 * (j * k * n);
  }

  lemma SameSign(j: int, n: int, r: int)
    requires 0 < n && -n <= 2 * r <= n
    ensures j * (j * n - 2 * r) >= 0
  {
    if j > 0 {
      assert j * n >= n;
    } else if j < 0 {
      assert j * n <= -n;
    }
  }

  /** No multiple of w leaves less than the one that is taken away. */
  lemma StripShortest(v: Vec, w: Vec, m: int)
    requires Sq(w) != 0
    ensures Sq(Strip(w)(v)) <= Sq(Minused(v, m, w))
  {
    hide Sq, Minused, Dot, Round;
    SqNonNegative(w);
    var p, n, k := Dot(w, v), Sq(w), Times(v, w);
    RoundedQuotient(p, n);
    LeastMultiple(p, n, k, m);
    SqMinused(v, k, w);
    SqMinused(v, m, w);
  }

  lemma RoundOdd(x: real)
    ensures Round(-x) == -Round(x)
  {
  }

  lemma StripOdd(v: Vec, w: Vec)
    requires Sq(w) != 0
    ensures Strip(w)(Negated(v)) == Negated(Strip(w)(v))
  {
    hide Sq, Round;
    assert Dot(w, Negated(v)) == -Dot(w, v);
    var x := Dot(w, v) as real / Sq(w) as real;
    assert Dot(w, Negated(v)) as real / Sq(w) as real == -x;
    RoundOdd(x);
  }

  lemma StripMoves(u: Vec, v: Vec, w: Vec)
    requires Sq(w) != 0
    ensures MovedAs(u, v, Strip(w)(v)) == Minused(u, Times(v, w), w)
  {
  }

  /** The strip wrapping is a least one, whatever its direction. */
  lemma StripLeast(w: Vec)
    requires w != Vec(0, 0)
    ensures Sq(w) != 0 && LeastWrap(Strip(w))
  {
    hide Sq, Strip, Minused, Times;
    SqPositive(w);
    var wrap := Strip(w);
    forall u, v
      ensures LeastAt(wrap, u, v)
    {
      StripMoves(u, v, w);
      StripShortest(u, w, Times(v, w));
    }
    forall v
      ensures EvenAt(wrap, v)
    {
      StripOdd(v, w);
      SqNegate(wrap(v));
    }
    StripZero(w);
  }

  lemma StripZero(w: Vec)
    requires Sq(w) != 0
    ensures Strip(w)(Vec(0, 0)) == Vec(0, 0)
  {
    hide Sq;
    assert Dot(w, Vec(0, 0)) == 0;
  }

  lemma {:induction false} ModMultiple(a: int, k: int, d: int, n: nat)
    requires 0 < n && Mod(d, n) == 0
    ensures Mod(a - k * d, n) == Mod(a, n)
    decreases Abs(k)
  {
    hide Mod;
    if k > 0 {
      ModMultiple(a - d, k - 1, d, n);
      assert a - k * d == a - d - (k - 1) * d;
      ModAdd(a - d, d, n);
      ModAdd(d, a - d, n);
      ModAdd(0, a - d, n);
      ModZero(n);
    } else if k < 0 {
      ModMultiple(a + d, k + 1, d, n);
      assert a - k * d == a + d - (k + 1) * d;
      ModAdd(d, a, n);
      ModAdd(0, a, n);
      ModZero(n);
    }
  }

  lemma ModZero(n: nat)
    requires 0 < n
    ensures Mod(0, n) == 0
  {
  }

  /** A strip that goes around the map moves points by multiples of the map size. */
  lemma StripFaithful(w: Vec, width: nat, height: nat)
    requires Sq(w) != 0 && 0 < width && 0 < height && Mod(w.dx, width) == 0 && Mod(w.dy, height) == 0
    ensures Faithful(Strip(w), width, height)
  {
    hide Mod, Sq, Times;
    forall v
      ensures SameSpot(Strip(w)(v), v, width, height)
    {
      ModMultiple(v.dx, Times(v, w), w.dx, width);
      ModMultiple(v.dy, Times(v, w), w.dy, height);
    }
  }
}
