/** The pruned nearest-pair search findmin of mapconvert.py.  It skips ahead in the second polygon by as
    much as the distance at hand allows, and still finds what looking at all pairs would find. */
module NearestPair {
  import opened Basics
  import opened BlockMap
  import opened TracePoly

  function Abs(a: int): nat {
    if a < 0 then -a else a
  }

  function Sq(v: Vec): int {
    v.dx * v.dx + v.dy * v.dy
  }

  function Minus(a: Point, b: Point): Vec {
    Vec(a.x - b.x, a.y - b.y)
  }

  // ---------------------------------------------------------------- wrapping functions

  /** Both coordinates differ by at most j. */
  predicate Within(u: Vec, v: Vec, j: nat) {
    Abs(u.dx - v.dx) <= j && Abs(u.dy - v.dy) <= j
  }

  function Negated(v: Vec): Vec {
    Vec(-v.dx, -v.dy)
  }

  /** u moved in the same way as v is moved to w. */
  function MovedAs(u: Vec, v: Vec, w: Vec): Vec {
    Vec(u.dx + w.dx - v.dx, u.dy + w.dy - v.dy)
  }

  /** Moving u as the function moves v does not make it shorter than the function makes it. */
  predicate LeastAt(wrap: Vec -> Vec, u: Vec, v: Vec) {
    Sq(wrap(u)) <= Sq(MovedAs(u, v, wrap(v)))
  }

  predicate EvenAt(wrap: Vec -> Vec, v: Vec) {
    Sq(wrap(Negated(v))) == Sq(wrap(v))
  }

  /** A wrapping function that moves every vector to a shortest place, among all the ways it moves vectors. */
  ghost predicate LeastWrap(wrap: Vec -> Vec) {
    (forall u, v :: LeastAt(wrap, u, v)) && EvenWrap(wrap) && wrap(Vec(0, 0)) == Vec(0, 0)
  }

  /** Opposite vectors get the same length. */
  ghost predicate EvenWrap(wrap: Vec -> Vec) {
    forall v :: EvenAt(wrap, v)
  }

  /** The minwrap of poly_link when there is an outer polygon. */
  function Plain(v: Vec): Vec {
    v
  }

  /** One coordinate of the minwrap of poly_link on the torus. */
  function Nearest(a: int, n: nat): int
    requires 0 < n
  {
    Mod(a + n / 2, n) - n / 2
  }

  /** The minwrap of poly_link when the wall has no outer polygon. */
  function TorusWrap(width: nat, height: nat): Vec -> Vec
    requires 0 < width && 0 < height
  {
    (v: Vec) => Vec(Nearest(v.dx, width), Nearest(v.dy, height))
  }

  lemma PlainLeast()
    ensures LeastWrap(Plain)
  {
    hide Sq;
    forall u, v
      ensures LeastAt(Plain, u, v)
    {
      assert MovedAs(u, v, Plain(v)) == u;
    }
    forall v
      ensures EvenAt(Plain, v)
    {
      SqNegate(v);
    }
  }

  /** Nearest(a) is the distance of a to the closest multiple of n, up to its sign. */
  lemma NearestSize(a: int, n: nat)
    requires 0 < n
    ensures Abs(Nearest(a, n)) == if Mod(a, n) <= n / 2 then Mod(a, n) else n - Mod(a, n)
  {
    ModAdd(a, n / 2, n);
  }

  lemma {:induction false} ModNegate(a: int, n: nat)
    requires 0 < n
    ensures Mod(-a, n) == if Mod(a, n) == 0 then 0 else n - Mod(a, n)
    decreases if a < 0 then n - a else a
  {
    if a < 0 {
      ModNegate(a + n, n);
      ModShift(-a - n, n);
    } else if n <= a {
      ModNegate(a - n, n);
      ModShift(-a, n);
    }
  }

  lemma NearestEven(a: int, n: nat)
    requires 0 < n
    ensures Abs(Nearest(-a, n)) == Abs(Nearest(a, n))
  {
    hide Mod, Nearest;
    NearestSize(a, n);
    NearestSize(-a, n);
    ModNegate(a, n);
  }

  /** A number is at least as large as its remainder, or as what the remainder lacks to n. */
  lemma {:induction false} ModSmall(c: int, n: nat)
    requires 0 < n
    ensures Mod(c, n) <= c || n - Mod(c, n) <= -c
    decreases if c < 0 then n - c else c
  {
    if c < 0 {
      ModSmall(c + n, n);
    } else if n <= c {
      ModSmall(c - n, n);
    }
  }

  /** No number with the same remainder is smaller than Nearest(a). */
  lemma NearestLeast(a: int, c: int, n: nat)
    requires 0 < n && Mod(c, n) == Mod(a, n)
    ensures Abs(Nearest(a, n)) <= Abs(c)
  {
    hide Mod, Nearest;
    NearestSize(a, n);
    ModSmall(c, n);
  }

  lemma NearestSame(b: int, n: nat)
    requires 0 < n
    ensures Mod(Nearest(b, n), n) == Mod(b, n)
  {
    ModAdd(b + n / 2, -(n / 2), n);
  }

  lemma NearestMoves(a: int, b: int, n: nat)
    requires 0 < n
    ensures Abs(Nearest(a, n)) <= Abs(a + Nearest(b, n) - b)
  {
    hide Mod, Nearest;
    NearestSame(b, n);
    ModAdd(b, a - b, n);
    ModAdd(Nearest(b, n), a - b, n);
    NearestLeast(a, a + Nearest(b, n) - b, n);
  }

  lemma SqMono(u: Vec, v: Vec)
    requires Abs(u.dx) <= Abs(v.dx) && Abs(u.dy) <= Abs(v.dy)
    ensures Sq(u) <= Sq(v)
  {
    SquareBound(u.dx, Abs(v.dx));
    SquareBound(u.dy, Abs(v.dy));
    SqSize(v);
  }

  lemma TorusLeast(width: nat, height: nat)
    requires 0 < width && 0 < height
    ensures LeastWrap(TorusWrap(width, height))
  {
    hide Mod, Nearest, Sq, Abs;
    var wrap := TorusWrap(width, height);
    forall u, v
      ensures LeastAt(wrap, u, v)
    {
      NearestMoves(u.dx, v.dx, width);
      NearestMoves(u.dy, v.dy, height);
      SqMono(wrap(u), MovedAs(u, v, wrap(v)));
    }
    forall v
      ensures EvenAt(wrap, v)
    {
      NearestEven(v.dx, width);
      NearestEven(v.dy, height);
      SqMono(wrap(v), wrap(Negated(v)));
      SqMono(wrap(Negated(v)), wrap(v));
    }
    NearestZero(width);
    NearestZero(height);
  }

  lemma NearestZero(n: nat)
    requires 0 < n
    ensures Nearest(0, n) == 0
  {
  }

  // ---------------------------------------------------------------- looking at all pairs

  /** A pair of points: their squared distance, their indices, and the offset between them. */
  datatype Hit = Hit(d: int, k: nat, l: nat, dx: int, dy: int)

  datatype Best = Best(mindist: int, hit: Option<Hit>)

  function Offset(wrap: Vec -> Vec, p: Polygon, q: Polygon, k: nat, l: nat): Vec
    requires k < |p| && l < |q|
  {
    wrap(Minus(q[l], p[k]))
  }

  function Better(wrap: Vec -> Vec, p: Polygon, q: Polygon, k: nat, l: nat, best: Best): Best
    requires k < |p| && l < |q|
  {
    var v := Offset(wrap, p, q, k, l);
    if Sq(v) < best.mindist then Best(Sq(v), Some(Hit(Sq(v), k, l, v.dx, v.dy))) else best
  }

  /** Compare point k of p with the points of q from l on. */
  function Row(wrap: Vec -> Vec, p: Polygon, q: Polygon, k: nat, l: nat, best: Best): Best
    requires k < |p|
    decreases |q| - l
  {
    if l >= |q| then best else Row(wrap, p, q, k, l + 1, Better(wrap, p, q, k, l, best))
  }

  /** Compare the points of p from k on with all points of q. */
  function Rows(wrap: Vec -> Vec, p: Polygon, q: Polygon, k: nat, best: Best): Best
    requires k <= |p|
    decreases |p| - k
  {
    if k == |p| then best else Rows(wrap, p, q, k + 1, Row(wrap, p, q, k, 0, best))
  }

  function Swapped(h: Option<Hit>): Option<Hit> {
    if h.None? then None else Some(Hit(h.value.d, h.value.l, h.value.k, -h.value.dx, -h.value.dy))
  }

  /** The search without skipping. */
  function Exhaustive(wrap: Vec -> Vec, p: Polygon, q: Polygon, mindist: int): Option<Hit> {
    if |p| > |q| then Swapped(Rows(wrap, q, p, 0, Best(mindist, None)).hit)
    else Rows(wrap, p, q, 0, Best(mindist, None)).hit
  }

  // What the search without skipping finds.

  predicate PairSeen(wrap: Vec -> Vec, p: Polygon, q: Polygon, best: Best, k: nat, l: nat)
    requires k < |p| && l < |q|
  {
    Sq(Offset(wrap, p, q, k, l)) >= best.mindist
  }

  /** The search has found a pair: its distance, indices and offset. */
  ghost predicate Found(wrap: Vec -> Vec, p: Polygon, q: Polygon, best: Best) {
    && best.hit.Some?
    && var h := best.hit.value;
       h.d == best.mindist && h.k < |p| && h.l < |q| && Offset(wrap, p, q, h.k, h.l) == Vec(h.dx, h.dy)
       && Sq(Vec(h.dx, h.dy)) == h.d
  }

  /** What looking at more pairs makes of the best one: it stays, or a closer pair is found. */
  ghost predicate Improves(wrap: Vec -> Vec, p: Polygon, q: Polygon, best: Best, best': Best) {
    best' == best || (best'.mindist < best.mindist && Found(wrap, p, q, best'))
  }

  lemma {:induction false} RowSees(wrap: Vec -> Vec, p: Polygon, q: Polygon, k: nat, l: nat, best: Best)
    requires k < |p|
    ensures Improves(wrap, p, q, best, Row(wrap, p, q, k, l, best))
    ensures forall j :: l <= j < |q| ==> PairSeen(wrap, p, q, Row(wrap, p, q, k, l, best), k, j)
    decreases |q| - l
  {
    hide Sq;
    if l < |q| {
      RowSees(wrap, p, q, k, l + 1, Better(wrap, p, q, k, l, best));
    }
  }

  lemma {:induction false} RowsSee(wrap: Vec -> Vec, p: Polygon, q: Polygon, k: nat, best: Best)
    requires k <= |p|
    ensures Improves(wrap, p, q, best, Rows(wrap, p, q, k, best))
    ensures forall i, j :: k <= i < |p| && 0 <= j < |q| ==> PairSeen(wrap, p, q, Rows(wrap, p, q, k, best), i, j)
    decreases |p| - k
  {
    hide Sq, Row;
    if k < |p| {
      RowSees(wrap, p, q, k, 0, best);
      RowsSee(wrap, p, q, k + 1, Row(wrap, p, q, k, 0, best));
      forall j | 0 <= j < |q|
        ensures PairSeen(wrap, p, q, Rows(wrap, p, q, k, best), k, j)
      {
        assert PairSeen(wrap, p, q, Row(wrap, p, q, k, 0, best), k, j);
      }
    }
  }

  /** The squared wrapped distance of two points. */
  function Dist(wrap: Vec -> Vec, a: Point, b: Point): int {
    Sq(wrap(Minus(b, a)))
  }

  lemma DistEven(wrap: Vec -> Vec, a: Point, b: Point)
    requires EvenWrap(wrap)
    ensures Dist(wrap, a, b) == Dist(wrap, b, a)
  {
    hide Sq;
    assert EvenAt(wrap, Minus(b, a)) && Minus(a, b) == Negated(Minus(b, a));
  }

  lemma SqSize(v: Vec)
    ensures Sq(v) == Abs(v.dx) * Abs(v.dx) + Abs(v.dy) * Abs(v.dy)
  {
  }

  lemma SqNegate(v: Vec)
    ensures Sq(Negated(v)) == Sq(v)
  {
  }

  /** Both polygons are given in map coordinates, and the wrapping function changes coordinates by
      multiples of the map size only. */
  ghost predicate Faithful(wrap: Vec -> Vec, width: nat, height: nat) {
    && 0 < width && 0 < height
    && forall v :: SameSpot(wrap(v), v, width, height)
  }

  predicate SameSpot(u: Vec, v: Vec, width: nat, height: nat)
    requires 0 < width && 0 < height
  {
    Mod(u.dx, width) == Mod(v.dx, width) && Mod(u.dy, height) == Mod(v.dy, height)
  }

  lemma PlainFaithful(width: nat, height: nat)
    requires 0 < width && 0 < height
    ensures Faithful(Plain, width, height)
  {
  }

  lemma TorusFaithful(width: nat, height: nat)
    requires 0 < width && 0 < height
    ensures Faithful(TorusWrap(width, height), width, height)
  {
    hide Mod;
    forall v
      ensures SameSpot(TorusWrap(width, height)(v), v, width, height)
    {
      ModAdd(v.dx + width / 2, -(width / 2), width);
      ModAdd(v.dy + height / 2, -(height / 2), height);
    }
  }

  /** What the search promises: the least distance below mindist, if there is one, with a pair of points
      that has it and the offset that leads from the first to the second. */
  ghost predicate Closest(wrap: Vec -> Vec, p: Polygon, q: Polygon, mindist: int, r: Option<Hit>) {
    match r
    case None => forall i, j :: 0 <= i < |p| && 0 <= j < |q| ==> Dist(wrap, p[i], q[j]) >= mindist
    case Some(h) =>
      && h.k < |p| && h.l < |q| && h.d < mindist
      && h.d == Dist(wrap, p[h.k], q[h.l]) == Sq(Vec(h.dx, h.dy))
      && forall i, j :: 0 <= i < |p| && 0 <= j < |q| ==> Dist(wrap, p[i], q[j]) >= h.d
  }

  lemma RowsClosest(wrap: Vec -> Vec, p: Polygon, q: Polygon, mindist: int)
    ensures Closest(wrap, p, q, mindist, Rows(wrap, p, q, 0, Best(mindist, None)).hit)
    ensures var h := Rows(wrap, p, q, 0, Best(mindist, None)).hit;
            h.Some? ==> wrap(Minus(q[h.value.l], p[h.value.k])) == Vec(h.value.dx, h.value.dy)
  {
    hide Sq, Rows;
    RowsSee(wrap, p, q, 0, Best(mindist, None));
    var best := Rows(wrap, p, q, 0, Best(mindist, None));
    forall i, j | 0 <= i < |p| && 0 <= j < |q|
      ensures Dist(wrap, p[i], q[j]) >= best.mindist
    {
      assert PairSeen(wrap, p, q, best, i, j);
    }
  }

  lemma {:induction false} ExhaustiveClosest(wrap: Vec -> Vec, p: Polygon, q: Polygon, mindist: int)
    requires EvenWrap(wrap)
    ensures Closest(wrap, p, q, mindist, Exhaustive(wrap, p, q, mindist))
  {
    hide Sq, Rows, EvenWrap;
    if |p| > |q| {
      var h := Rows(wrap, q, p, 0, Best(mindist, None)).hit;
      RowsClosest(wrap, q, p, mindist);
      forall i, j | 0 <= i < |p| && 0 <= j < |q|
        ensures Dist(wrap, p[i], q[j]) == Dist(wrap, q[j], p[i])
      {
        DistEven(wrap, p[i], q[j]);
      }
      if h.Some? {
        SqNegate(Vec(h.value.dx, h.value.dy));
      }
    } else {
      RowsClosest(wrap, p, q, mindist);
    }
  }

  /** v is the wrapped way from a to b, or the opposite of the wrapped way back. */
  predicate OffsetBy(wrap: Vec -> Vec, a: Point, b: Point, v: Vec) {
    v == wrap(Minus(b, a)) || v == Negated(wrap(Minus(a, b)))
  }

  /** Also after the swap, the offset leads from the first point to the second modulo the map size. */
  lemma OffsetLeads(wrap: Vec -> Vec, p: Polygon, q: Polygon, mindist: int, width: nat, height: nat)
    requires EvenWrap(wrap) && Faithful(wrap, width, height)
    ensures var h := Exhaustive(wrap, p, q, mindist);
            h.Some? ==> h.value.k < |p| && h.value.l < |q|
                        && SameSpot(Vec(h.value.dx, h.value.dy), Minus(q[h.value.l], p[h.value.k]), width, height)
                        && OffsetBy(wrap, p[h.value.k], q[h.value.l], Vec(h.value.dx, h.value.dy))
  {
    hide Sq, Rows, EvenWrap, Mod;
    ExhaustiveClosest(wrap, p, q, mindist);
    if |p| > |q| {
      RowsClosest(wrap, q, p, mindist);
      var h := Rows(wrap, q, p, 0, Best(mindist, None)).hit;
      if h.Some? {
        var u, v := Vec(h.value.dx, h.value.dy), Minus(p[h.value.l], q[h.value.k]);
        assert SameSpot(u, v, width, height);
        ModNegate(u.dx, width);
        ModNegate(v.dx, width);
        ModNegate(u.dy, height);
        ModNegate(v.dy, height);
      }
    } else {
      RowsClosest(wrap, p, q, mindist);
    }
  }

  // ---------------------------------------------------------------- skipping

  /** The square root function of the reals, on the integers. */
  ghost predicate IsSqrt(sqrt: nat -> real) {
    forall n :: sqrt(n) >= 0.0 && sqrt(n) * sqrt(n) == n as real
  }

  /** Consecutive points are at most a king's move apart. */
  ghost predicate KingSteps(p: Polygon) {
    forall i :: 0 <= i < |p| - 1 ==> KingStep(p, i)
  }

  ghost predicate KingStep(p: Polygon, i: nat)
    requires i + 1 < |p|
  {
    Abs(p[i + 1].x - p[i].x) <= 1 && Abs(p[i + 1].y - p[i].y) <= 1
  }

  /** Traced polygons take such steps. */
  lemma UnitChainKingSteps(p: Polygon)
    requires UnitChain(p)
    ensures KingSteps(p)
  {
    forall i | 0 <= i < |p| - 1
      ensures KingStep(p, i)
    {
      assert StepsOn(p, i);
      assert p[i].v == Dirs(DirOf(p[i].v));
    }
  }

  /** j steps along q change the offset by at most j in each coordinate. */
  lemma {:induction false} OffsetDrifts(p: Polygon, q: Polygon, k: nat, l: nat, j: nat)
    requires KingSteps(q) && k < |p| && l + j < |q|
    ensures Within(Minus(q[l + j], p[k]), Minus(q[l], p[k]), j)
  {
    if 0 < j {
      OffsetDrifts(p, q, k, l, j - 1);
      assert KingStep(q, l + j - 1);
    }
  }

  lemma Larger(a: real, b: real)
    requires 0.0 <= a <= b
    ensures a * a <= b * b
  {
    Scale(a, a, b);
    Scale(b, a, b);
  }

  lemma SquareGrows(a: real, c: real)
    requires 0.0 <= a && 0.0 < c
    ensures a * a < (a + c) * (a + c)
  {
    NonNegative(a, c);
    assert c * c > 0.0;
    assert (a + c) * (a + c) == a * a + 2.0 * (a * c) + c * c;
  }

  lemma MulMono(a: real, b: real)
    requires 0.0 <= a < b
    ensures a * a < b * b
  {
    SquareGrows(a, b - a);
    assert a + (b - a) == b;
  }

  lemma Scale(x: real, a: real, b: real)
    requires 0.0 <= x && a <= b
    ensures x * a <= x * b
  {
  }

  ghost function Square(x: real): real {
    x * x
  }

  ghost function TwoSquares(j: int): real {
    2.0 * (j * j) as real
  }

  /** 1.4143 is more than the square root of 2. */
  lemma Diagonals(x: real, j: nat)
    requires x > 1.4143 * j as real
    ensures Square(x) > TwoSquares(j)
  {
    var y := 1.4143 * j as real;
    MulMono(y, x);
    assert y * y == 1.4143 * 1.4143 * (j as real * j as real);
    assert (j * j) as real == j as real * j as real;
  }

  /** The Cauchy-Schwarz inequality for lengths s and t. */
  lemma Cauchy(a: int, b: int, a': int, b': int, s: real, t: real)
    requires s >= 0.0 && t >= 0.0 && 0 <= a && 0 <= b && 0 <= a' && 0 <= b'
    requires s * s == (a * a + b * b) as real && t * t == (a' * a' + b' * b') as real
    ensures s * t >= (a * a' + b * b') as real
  {
    var c := a * a' + b * b';
    CauchySquares(a, b, a', b');
    assert (s * t) * (s * t) == (s * s) * (t * t);
    Product(a * a + b * b, a' * a' + b' * b');
    Product(c, c);
    assert (s * t) * (s * t) >= c as real * c as real;
    assert 0 <= a * a' && 0 <= b * b';
    if s * t < c as real {
      NonNegative(s, t);
      MulMono(s * t, c as real);
    }
  }

  lemma NonNegative(s: real, t: real)
    requires s >= 0.0 && t >= 0.0
    ensures s * t >= 0.0
  {
  }

  lemma Product(m: int, n: int)
    ensures (m * n) as real == m as real * n as real
  {
  }

  lemma CauchySquares(a: int, b: int, a': int, b': int)
    ensures (a * a' + b * b') * (a * a' + b * b') <= (a * a + b * b) * (a' * a' + b' * b')
  {
    var z := a * b' - a' * b;
    assert 0 <= z * z;
    assert (a * a + b * b) * (a' * a' + b' * b') - (a * a' + b * b') * (a * a' + b * b') == z * z;
  }

  /** Changing both coordinates by at most j makes a vector of length s shorter by at most j diagonals. */
  lemma Shorter(u: Vec, v: Vec, j: nat, s: real, t: real)
    requires Within(v, u, j) && s >= 0.0 && t >= 0.0 && s * s == Sq(u) as real && t * t == Sq(v) as real
    ensures s - t <= 1.4143 * j as real
  {
    hide Square, TwoSquares;
    SqSize(u);
    SqSize(v);
    Gap(Abs(u.dx), Abs(u.dy), Abs(v.dx), Abs(v.dy), j, s, t);
    if s - t > 1.4143 * j as real {
      Diagonals(s - t, j);
    }
  }

  /** A point j king's moves away from one at wrapped distance s is not closer than s minus j diagonals. */
  lemma NotCloser(sqrt: nat -> real, wrap: Vec -> Vec, u: Vec, v: Vec, j: nat)
    requires IsSqrt(sqrt) && LeastWrap(wrap) && Within(v, u, j)
    requires 0 <= Sq(wrap(u)) && 0 <= Sq(wrap(v))
    ensures sqrt(Sq(wrap(u))) - sqrt(Sq(wrap(v))) <= 1.4143 * j as real
  {
    hide LeastWrap, Sq;
    var w := MovedAs(u, v, wrap(v));
    assert Within(wrap(v), w, j);
    LeastMoved(wrap, u, v);
    SqNonNegative(w);
    Shorter(w, wrap(v), j, sqrt(Sq(w)), sqrt(Sq(wrap(v))));
    if sqrt(Sq(w)) < sqrt(Sq(wrap(u))) {
      MulMono(sqrt(Sq(w)), sqrt(Sq(wrap(u))));
    }
  }

  lemma LeastMoved(wrap: Vec -> Vec, u: Vec, v: Vec)
    requires LeastWrap(wrap)
    ensures Sq(wrap(u)) <= Sq(MovedAs(u, v, wrap(v)))
  {
    hide Sq;
    assert LeastAt(wrap, u, v);
  }

  lemma Gap(a: int, b: int, a': int, b': int, j: int, s: real, t: real)
    requires s >= 0.0 && t >= 0.0 && 0 <= a && 0 <= b && 0 <= a' && 0 <= b'
    requires s * s == (a * a + b * b) as real && t * t == (a' * a' + b' * b') as real
    requires -j <= a - a' <= j && -j <= b - b' <= j
    ensures Square(s - t) <= TwoSquares(j)
  {
    Cauchy(a, b, a', b', s, t);
    SquareBound(a - a', j);
    SquareBound(b - b', j);
    ExpandReal(s, t);
    Expand(a, a');
    Expand(b, b');
    Combine((s - t) * (s - t), s * s, t * t, s * t, a * a, b * b, a' * a', b' * b', a * a', b * b', j * j);
  }

  lemma Combine(x: real, ss: real, tt: real, st: real, a2: int, b2: int, a2': int, b2': int, ab: int, ab': int, j2: int)
    requires x == ss + tt - 2.0 * st && ss == (a2 + b2) as real && tt == (a2' + b2') as real && st >= (ab + ab') as real
    requires a2 + a2' - 2 * ab <= j2 && b2 + b2' - 2 * ab' <= j2
    ensures x <= 2.0 * j2 as real
  {
  }

  lemma ExpandReal(a: real, b: real)
    ensures (a - b) * (a - b) == a * a + b * b - 2.0 * (a * b)
  {
  }

  lemma Expand(a: int, b: int)
    ensures (a - b) * (a - b) == a * a + b * b - 2 * (a * b)
  {
  }

  lemma SquareBound(a: int, j: int)
    requires -j <= a <= j
    ensures a * a <= j * j
  {
    assert j * j - a * a == (j - a) * (j + a);
  }

  /** The number of points findmin moves on by: int((sqrt(d) - mind) / 1.4143). */
  function Skip(s: real, mind: real): int {
    ((s - mind) / 1.4143).Floor
  }

  /** Every point skipped is too far away. */
  lemma SkippedFar(sqrt: nat -> real, wrap: Vec -> Vec, p: Polygon, q: Polygon, k: nat, l: nat, best: Best, i: nat)
    requires IsSqrt(sqrt) && LeastWrap(wrap) && KingSteps(q) && k < |p| && l <= i < |q| && 0 <= best.mindist
    requires Sq(Offset(wrap, p, q, k, l)) >= 0
    requires i - l < Skip(sqrt(Sq(Offset(wrap, p, q, k, l))), sqrt(best.mindist))
    ensures PairSeen(wrap, p, q, best, k, i)
  {
    hide LeastWrap, KingSteps, Within, Sq;
    var j := i - l;
    var u, v := Minus(q[l], p[k]), Minus(q[l + j], p[k]);
    OffsetDrifts(p, q, k, l, j);
    SqNonNegative(wrap(v));
    var s, t, mind := sqrt(Sq(wrap(u))), sqrt(Sq(wrap(v))), sqrt(best.mindist);
    NotCloser(sqrt, wrap, u, v, j);
    SkipBound(s, mind, j);
    if Sq(wrap(v)) < best.mindist {
      assert t * t < mind * mind;
      if mind <= t {
        Larger(mind, t);
      }
    }
  }

  lemma SkipBound(s: real, mind: real, j: int)
    requires 0 <= j < Skip(s, mind)
    ensures s - mind > 1.4143 * j as real
  {
  }

  lemma SqNonNegative(v: Vec)
    ensures 0 <= Sq(v)
  {
    SqSize(v);
  }

  /** From a distance of at least mind + 4 the search moves on. */
  lemma SkipMoves(s: real, mind: real)
    requires s >= 0.0 && mind >= 0.0 && s * s >= (mind + 4.0) * (mind + 4.0)
    ensures Skip(s, mind) >= 2
  {
    if s < mind + 4.0 {
      MulMono(s, mind + 4.0);
    }
  }

  /** Pairs that are too far away may be left out of a row. */
  lemma {:induction false} RowSkips(wrap: Vec -> Vec, p: Polygon, q: Polygon, k: nat, l: nat, l': nat, best: Best)
    requires k < |p| && l <= l' && forall i :: l <= i < l' && i < |q| ==> PairSeen(wrap, p, q, best, k, i)
    ensures Row(wrap, p, q, k, l, best) == Row(wrap, p, q, k, l', best)
    decreases l' - l
  {
    hide Sq, Offset;
    if l < l' && l < |q| {
      assert PairSeen(wrap, p, q, best, k, l);
      RowSkips(wrap, p, q, k, l + 1, l', best);
    }
  }

  /** The inner loop of findmin: compare point k of p with the points of q, skipping where it can. */
  method SearchRow(p: Polygon, q: Polygon, k: nat, wrap: Vec -> Vec, sqrt: nat -> real,
                   mindist0: int, result0: Option<Hit>, mind0: real, far0: real)
    returns (mindist: int, result: Option<Hit>, mind: real, far: real)
    requires LeastWrap(wrap) && KingSteps(q) && IsSqrt(sqrt) && k < |p|
    requires 0 <= mindist0 && mind0 == sqrt(mindist0) && far0 == (mind0 + 4.0) * (mind0 + 4.0)
    ensures 0 <= mindist && mind == sqrt(mindist) && far == (mind + 4.0) * (mind + 4.0)
    ensures Best(mindist, result) == Row(wrap, p, q, k, 0, Best(mindist0, result0))
  {
    hide Sq, LeastWrap, KingSteps, Abs, Skip;
    mindist, result, mind, far := mindist0, result0, mind0, far0;
    var l := 0;
    while l < |q|
      invariant 0 <= l && 0 <= mindist && mind == sqrt(mindist) && far == (mind + 4.0) * (mind + 4.0)
      invariant Row(wrap, p, q, k, l, Best(mindist, result)) == Row(wrap, p, q, k, 0, Best(mindist0, result0))
      decreases |q| - l
    {
      var v := wrap(Minus(q[l], p[k]));
      var d := Sq(v);
      SqNonNegative(v);
      if d < mindist {
        mindist := d;
        mind := sqrt(mindist);
        far := (mind + 4.0) * (mind + 4.0);
        result := Some(Hit(mindist, k, l, v.dx, v.dy));
        l := l + 1;
      } else if d as real < far {
        l := l + 1;
      } else {
        var s := sqrt(d);
        SkipMoves(s, mind);
        RowSkipsFar(sqrt, wrap, p, q, k, l, Best(mindist, result));
        l := l + Skip(s, mind);
      }
    }
  }

  lemma RowSkipsFar(sqrt: nat -> real, wrap: Vec -> Vec, p: Polygon, q: Polygon, k: nat, l: nat, best: Best)
    requires IsSqrt(sqrt) && LeastWrap(wrap) && KingSteps(q) && k < |p| && l < |q| && 0 <= best.mindist
    requires Sq(Offset(wrap, p, q, k, l)) >= 0
    requires Skip(sqrt(Sq(Offset(wrap, p, q, k, l))), sqrt(best.mindist)) >= 0
    ensures Row(wrap, p, q, k, l, best)
         == Row(wrap, p, q, k, l + Skip(sqrt(Sq(Offset(wrap, p, q, k, l))), sqrt(best.mindist)), best)
  {
    hide Sq, LeastWrap, KingSteps, Skip, Offset, Row;
    var n := Skip(sqrt(Sq(Offset(wrap, p, q, k, l))), sqrt(best.mindist));
    forall i | l <= i < l + n && i < |q|
      ensures PairSeen(wrap, p, q, best, k, i)
    {
      SkippedFar(sqrt, wrap, p, q, k, l, best, i);
    }
    RowSkips(wrap, p, q, k, l, l + n, best);
  }

  lemma LeastIsEven(wrap: Vec -> Vec)
    requires LeastWrap(wrap)
    ensures EvenWrap(wrap)
  {
    hide Sq;
  }

  /** findmin: the result is the one that comparing all pairs gives, and so the closest pair. */
  method FindMin(part1: Polygon, part2: Polygon, bound: int, wrap: Vec -> Vec, sqrt: nat -> real)
    returns (r: Option<Hit>)
    requires LeastWrap(wrap) && KingSteps(part1) && KingSteps(part2) && IsSqrt(sqrt) && 0 <= bound
    ensures r == Exhaustive(wrap, part1, part2, bound)
    ensures Closest(wrap, part1, part2, bound, r)
  {
    hide Sq, LeastWrap, KingSteps, Row, IsSqrt, Closest;
    var mindist, result := bound, None;
    var mind := sqrt(mindist);
    var far := (mind + 4.0) * (mind + 4.0);
    var p, q, swap := part1, part2, false;
    if |part1| > |part2| {
      p, q, swap := part2, part1, true;
    }
    var k := 0;
    while k < |p|
      invariant 0 <= k <= |p| && 0 <= mindist && mind == sqrt(mindist) && far == (mind + 4.0) * (mind + 4.0)
      invariant Rows(wrap, p, q, k, Best(mindist, result)) == Rows(wrap, p, q, 0, Best(bound, None))
    {
      mindist, result, mind, far := SearchRow(p, q, k, wrap, sqrt, mindist, result, mind, far);
      k := k + 1;
    }
    LeastIsEven(wrap);
    ExhaustiveClosest(wrap, part1, part2, bound);
    r := if swap then Swapped(result) else result;
  }
}
