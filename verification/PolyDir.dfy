/** How often a polygon turns around: polydir of mapconvert.py counts crossings of the boundary
    between the two half planes of directions, and that count is the total turning. */
module PolyDir {
  import opened BlockMap
  import opened TracePoly

  /** The turn from direction d to direction e in octants, counter-clockwise positive; 4 is a reversal. */
  function Octants(d: Dir, e: Dir): int {
    (e - d + 11) % 8 - 3
  }

  /** The turn does lead from d to e, and is as small as possible. */
  lemma OctantsLead(d: Dir, e: Dir)
    ensures -3 <= Octants(d, e) <= 4 && (d + Octants(d, e)) % 8 == e
  {
  }

  function DirAt(poly: Polygon, i: nat): Dir
    requires i < |poly|
  {
    DirOf(poly[i].v)
  }

  /** The direction before entry i, around the polygon. */
  function Before(poly: Polygon, i: nat): Dir
    requires i < |poly|
  {
    DirAt(poly, if i == 0 then |poly| - 1 else i - 1)
  }

  /** The total turning on the way into the first n entries. */
  function Turning(poly: Polygon, n: nat): int
    requires n <= |poly|
  {
    if n == 0 then 0 else Turning(poly, n - 1) + Octants(Before(poly, n - 1), DirAt(poly, n - 1))
  }

  /** All steps are unit steps and none reverses the one before it, around the polygon. */
  predicate NoReversal(poly: Polygon) {
    forall i :: 0 <= i < |poly| ==> TurnsAt(poly, i)
  }

  predicate TurnsAt(poly: Polygon, i: nat)
    requires i < |poly|
  {
    poly[i].v == Dirs(DirAt(poly, i)) && Octants(Before(poly, i), DirAt(poly, i)) != 4
  }

  /** Multiplication, spelled out for the factors that unit steps have. */
  function Times(a: int, b: int): (r: int)
    ensures r == a * b
  {
    if a == 0 then 0 else if a == 1 then b else if a == -1 then -b else a * b
  }

  /** What one step of polydir adds to its wind count. */
  function Crossing(p: Vec, q: Vec): int {
    if (p.dy >= 0) != (q.dy >= 0) then
      var side := Times(p.dx, q.dy) - Times(q.dx, p.dy);
      if side > 0 then -1 else if side < 0 then 1 else 0
    else 0
  }

  /** How many half-plane boundaries lie below a heading given as an unreduced number of octants. */
  function Halves(a: int): int {
    2 * (a / 8) + if a % 8 == 0 then 0 else if a % 8 <= 3 then 1 else 2
  }

  /** A turn by less than half a circle crosses exactly the boundaries that polydir counts. */
  lemma CrossingIsHalves(a: int, e: Dir)
    requires Octants(a % 8, e) != 4
    ensures Halves(a + Octants(a % 8, e)) - Halves(a) == Crossing(Dirs(a % 8), Dirs(e))
  {
    hide Octants, Halves, Crossing, Dirs;
    var d, q := a % 8, a / 8;
    HalvesShift(q, d);
    HalvesShift(q, d + Octants(d, e));
    CrossingTable(d, e);
  }

  lemma HalvesShift(q: int, s: int)
    ensures Halves(8 * q + s) == 2 * q + Halves(s)
  {
    assert (8 * q + s) / 8 == q + s / 8;
  }

  lemma OctantsTable(d: Dir, e: Dir)
    ensures Octants(d, e) == if e - d > 4 then e - d - 8 else if e - d < -3 then e - d + 8 else e - d
  {
  }

  lemma HalvesTable(a: int)
    requires -3 <= a <= 11
    ensures Halves(a) == if a <= 0 then 0 else if a <= 3 then 1 else if a <= 8 then 2 else 3
  {
  }

  lemma CrossingTable(d: Dir, e: Dir)
    requires Octants(d, e) != 4
    ensures Halves(d + Octants(d, e)) - Halves(d) == Crossing(Dirs(d), Dirs(e))
  {
    hide Octants, Halves;
    OctantsTable(d, e);
    HalvesTable(d);
    HalvesTable(d + Octants(d, e));
  }

  /** polydir: the result is the total turning in full circles, positive counter-clockwise on screen. */
  method PolyDirection(poly: Polygon) returns (r: int)
    requires 0 < |poly| && NoReversal(poly)
    ensures 8 * r == Turning(poly, |poly|)
  {
    hide Octants, Halves, Crossing, Dirs, HeadingIs, DirOf, NoReversal, Turning;
    var prev := poly[|poly| - 1].v;
    var wind := 0;
    ghost var start := DirAt(poly, |poly| - 1);
    HeadingNone(poly, start);
    for i := 0 to |poly|
      invariant prev == (if i == 0 then poly[|poly| - 1] else poly[i - 1]).v
      invariant HeadingIs(poly, start, i, wind)
    {
      HeadingStep(poly, start, i, wind);
      ghost var wind0 := wind;
      var v := poly[i].v;
      if (prev.dy >= 0) != (v.dy >= 0) {
        var side := prev.dx * v.dy - v.dx * prev.dy;
        if side != 0 {
          if side > 0 {
            wind := wind - 1;
          } else {
            wind := wind + 1;
          }
        }
      }
      CrossingIs(prev, v, wind - wind0);
      prev := v;
    }
    FullTurn(poly, start, wind);
    r := wind / 2;
  }

  /** After n entries the unreduced heading is start plus the turning, and wind counts its boundaries. */
  ghost predicate HeadingIs(poly: Polygon, start: Dir, n: nat, wind: int)
    requires n <= |poly|
  {
    Heading(start, Turning(poly, n), if n == 0 then start else DirAt(poly, n - 1), wind)
  }

  ghost predicate Heading(start: Dir, turned: int, d: Dir, wind: int) {
    (start + turned) % 8 == d && wind == Halves(start + turned) - Halves(start)
  }

  lemma HeadingNone(poly: Polygon, start: Dir)
    ensures HeadingIs(poly, start, 0, 0)
  {
  }

  lemma HeadingStep(poly: Polygon, start: Dir, n: nat, wind: int)
    requires n < |poly| && NoReversal(poly) && start == DirAt(poly, |poly| - 1) && HeadingIs(poly, start, n, wind)
    ensures HeadingIs(poly, start, n + 1, wind + Crossing(poly[if n == 0 then |poly| - 1 else n - 1].v, poly[n].v))
  {
    hide Octants, Halves, Crossing, Dirs, DirOf, Turning, Heading;
    TurningNext(poly, n);
    assert TurnsAt(poly, n) && TurnsAt(poly, if n == 0 then |poly| - 1 else n - 1);
    HeadingTurn(start, Turning(poly, n), Before(poly, n), DirAt(poly, n), wind);
  }

  lemma TurningNext(poly: Polygon, n: nat)
    requires n < |poly|
    ensures Turning(poly, n + 1) == Turning(poly, n) + Octants(Before(poly, n), DirAt(poly, n))
  {
  }

  lemma HeadingTurn(start: Dir, turned: int, d: Dir, e: Dir, wind: int)
    requires Heading(start, turned, d, wind) && Octants(d, e) != 4
    ensures Heading(start, turned + Octants(d, e), e, wind + Crossing(Dirs(d), Dirs(e)))
  {
    hide Octants, Halves, Crossing, Dirs;
    var a := start + turned;
    CrossingIsHalves(a, e);
    OctantsLead(d, e);
    ModTurn(a, Octants(d, e));
    assert a + Octants(d, e) == start + (turned + Octants(d, e));
  }

  lemma ModTurn(a: int, t: int)
    ensures (a + t) % 8 == (a % 8 + t) % 8
  {
  }

  lemma CrossingIs(p: Vec, q: Vec, w: int)
    requires w == if (p.dy >= 0) != (q.dy >= 0) then
                    (if p.dx * q.dy - q.dx * p.dy > 0 then -1 else if p.dx * q.dy - q.dx * p.dy < 0 then 1 else 0)
                  else 0
    ensures w == Crossing(p, q)
  {
  }

  lemma FullTurn(poly: Polygon, start: Dir, wind: int)
    requires 0 < |poly| && start == DirAt(poly, |poly| - 1) && HeadingIs(poly, start, |poly|, wind)
    ensures wind % 2 == 0 && 4 * wind == Turning(poly, |poly|)
  {
  }

  /** Every polygon that poly_findedges returns qualifies. */
  lemma TracedNoReversal(m: Map, poly: Polygon)
    requires m.Valid() && Traced(m, poly)
    ensures 0 < |poly| && NoReversal(poly)
  {
    hide Octants, Dirs, Map.NoEdge, Next, DirOf;
    var es := EdgesOf(m, poly);
    forall i | 0 <= i < |poly|
      ensures TurnsAt(poly, i)
    {
      var j := if i == 0 then |poly| - 1 else i - 1;
      assert 0 < i ==> Follows(m, es, j);
      NextBoundary(m, es[j]);
      ReversalIs(es[j].d, es[i].d);
    }
  }

  lemma ReversalIs(d: Dir, e: Dir)
    ensures Octants(d, e) == 4 <==> e == (d + 4) % 8
  {
  }
}
