/** The extended Euclid loop in poly_handle_totalwrap of mapconvert.py, which finds a second wrapping vector
    for a polygon that wraps around the map. */
module WrapVector {
  import opened Basics
  import opened BlockMap

  /** Python's // operator. */
  function FloorDiv(b: int, a: int): int
    requires a != 0
  {
    if a > 0 then b / a else (-b) / (-a)
  }

  /** The remainder of floor division is smaller than the divisor, for negative numbers too. */
  lemma FloorDivRemainder(b: int, a: int)
    requires a != 0
    ensures Size(b - FloorDiv(b, a) * a) < Size(a)
  {
  }

  function Size(a: int): nat { if a < 0 then -a else a }

  ghost predicate Divides(g: int, a: int) {
    exists k :: k * g == a
  }

  ghost predicate CommonDivisor(g: int, a: int, b: int) {
    Divides(g, a) && Divides(g, b)
  }

  /** Nothing but 1 and -1 divides both. */
  ghost predicate Coprime(a: int, b: int) {
    forall g :: CommonDivisor(g, a, b) ==> g == 1 || g == -1
  }

  lemma DividesSum(g: int, a: int, b: int, d: int)
    requires Divides(g, a) && Divides(g, b)
    ensures Divides(g, b - d * a)
  {
    var k, l :| k * g == a && l * g == b;
    Distribute(l, d, k, g);
    assert (l - d * k) * g == b - d * a;
  }

  lemma Distribute(l: int, d: int, k: int, g: int)
    ensures (l - d * k) * g == l * g - d * (k * g)
  {
  }

  /** A step of the loop keeps the common divisors. */
  lemma SameDivisors(g: int, a: int, b: int, d: int)
    ensures CommonDivisor(g, a, b) <==> CommonDivisor(g, b - d * a, a)
  {
    if CommonDivisor(g, a, b) {
      DividesSum(g, a, b, d);
    }
    if CommonDivisor(g, b - d * a, a) {
      DividesSum(g, a, b - d * a, -d);
      assert b - d * a - (-d) * a == b;
    }
  }

  /** A triple whose third part is the combination of A and B that the first two say. */
  datatype Row = Row(p: int, q: int, v: int)

  predicate Combines(r: Row, A: int, B: int) {
    r.p * A + r.q * B == r.v
  }

  /** (b[0] - d * a[0], b[1] - d * a[1], b[2] - d * a[2]) */
  function Reduce(b: Row, a: Row, d: int): Row {
    Row(b.p - d * a.p, b.q - d * a.q, b.v - d * a.v)
  }

  lemma ReduceCombines(b: Row, a: Row, d: int, A: int, B: int)
    requires Combines(a, A, B) && Combines(b, A, B)
    ensures Combines(Reduce(b, a, d), A, B)
  {
    Expand(b.p, d, a.p, A);
    Expand(b.q, d, a.q, B);
    Join(d, a.p * A, a.q * B);
  }

  lemma Expand(x: int, d: int, y: int, z: int)
    ensures (x - d * y) * z == x * z - d * (y * z)
  {
  }

  lemma Join(d: int, x: int, y: int)
    ensures d * (x + y) == d * x + d * y
  {
  }

  /** The loop: b is left with a combination of A and B that is a greatest common divisor of them. */
  method Reduction(A: int, B: int) returns (b: Row)
    ensures Combines(b, A, B) && CommonDivisor(b.v, A, B)
    ensures forall g :: CommonDivisor(g, A, B) ==> Divides(g, b.v)
  {
    hide Divides, Combines;
    var a := Row(1, 0, A);
    b := Row(0, 1, B);
    StartCombines(A, B);
    while a.v != 0
      invariant Combines(a, A, B) && Combines(b, A, B)
      invariant forall g :: CommonDivisor(g, a.v, b.v) <==> CommonDivisor(g, A, B)
      decreases Size(a.v)
    {
      var d := FloorDiv(b.v, a.v);
      ReduceCombines(b, a, d, A, B);
      FloorDivRemainder(b.v, a.v);
      forall g
        ensures CommonDivisor(g, a.v, b.v) <==> CommonDivisor(g, Reduce(b, a, d).v, a.v)
      {
        SameDivisors(g, a.v, b.v, d);
      }
      a, b := Reduce(b, a, d), a;
    }
    forall g
      ensures CommonDivisor(g, 0, b.v) <==> Divides(g, b.v)
    {
      DividesZero(g);
    }
    DividesSelf(b.v);
  }

  lemma StartCombines(A: int, B: int)
    ensures Combines(Row(1, 0, A), A, B) && Combines(Row(0, 1, B), A, B)
  {
  }

  lemma DividesZero(g: int)
    ensures Divides(g, 0)
  {
    assert 0 * g == 0;
  }

  lemma DividesSelf(g: int)
    ensures Divides(g, g)
  {
    assert 1 * g == g;
  }

  lemma DividesOne(g: int)
    requires Divides(g, 1) || Divides(g, -1)
    ensures g == 1 || g == -1
  {
    if Divides(g, 1) {
      var k :| k * g == 1;
      UnitFactor(k, g);
    } else {
      var k :| k * g == -1;
      UnitFactor(-k, g);
    }
  }

  lemma UnitFactor(k: int, g: int)
    requires k * g == 1
    ensures g == 1 || g == -1
  {
    if 1 < g {
      Multiple(g, k);
    } else if g < -1 {
      Multiple(-g, k);
    }
  }

  /** The numbers are coprime exactly if the loop ends with 1 or -1. */
  lemma UnitMeansCoprime(A: int, B: int, v: int)
    requires CommonDivisor(v, A, B) && forall g :: CommonDivisor(g, A, B) ==> Divides(g, v)
    ensures Size(v) == 1 <==> Coprime(A, B)
  {
    hide Divides;
    if v == 1 || v == -1 {
      forall g | CommonDivisor(g, A, B)
        ensures g == 1 || g == -1
      {
        DividesOne(g);
      }
    }
  }

  /** The part of poly_handle_totalwrap from the assertions on the wrapping vector to the one on the second
      vector.  None stands for a failing assertion; the last one never fails. */
  method SecondWrap(wx: int, wy: int, width: nat, height: nat) returns (r: Option<Vec>)
    requires 0 < width && 0 < height
    ensures r.Some? <==> wx % width == 0 && wy % height == 0 && Coprime(wx / width, wy / height)
    ensures r.Some? ==> wy / height * r.value.dx + FloorDiv(-wx, width) * r.value.dy == 1
  {
    if wx % width != 0 || wy % height != 0 {
      return None;
    }
    var b := Reduction(wx / width, wy / height);
    UnitMeansCoprime(wx / width, wy / height, b.v);
    if Size(b.v) != 1 {
      return None;
    }
    var wx2, wy2 := b.q * b.v, -b.p * b.v;
    Determinant(b, wx / width, wy / height);
    NegatedQuotient(wx, width);
    r := Some(Vec(wx2, wy2));
  }

  lemma Determinant(b: Row, A: int, B: int)
    requires Combines(b, A, B) && (b.v == 1 || b.v == -1)
    ensures B * (b.q * b.v) + -A * (-b.p * b.v) == 1
  {
    if b.v == 1 {
      assert B * b.q + -A * -b.p == b.p * A + b.q * B;
    } else {
      assert B * -b.q + -A * b.p == -(b.p * A + b.q * B);
    }
  }

  lemma NegatedQuotient(a: int, n: nat)
    requires 0 < n && a % n == 0
    ensures FloorDiv(-a, n) == -(a / n)
  {
    var q := a / n;
    assert -a == n * -q;
    QuotientOf(-a, n, -q);
  }

  lemma QuotientOf(a: int, n: nat, q: int)
    requires 0 < n && a == n * q
    ensures a / n == q
  {
    var r := a / n;
    assert n * (q - r) == a % n;
    Multiple(n, q - r);
  }
}
