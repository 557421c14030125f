/** The block map of mapconvert.py: a torus of full and half (diagonal) wall blocks, the
    question "is there wall just clockwise of this ray" (Map.noedge), and the directed
    boundary edges that follow from it.

    A corner is named by the cell whose top left corner it is.  The y axis points down the
    screen, and the eight directions turn counter-clockwise on the screen, starting at "right". */
module BlockMap {

  datatype Cell = Cell(x: int, y: int)

  type Dir = d: int | 0 <= d < 8

  datatype Vec = Vec(dx: int, dy: int)

  /** The table `dirs`. */
  function Dirs(d: Dir): Vec {
    match d
    case 0 => Vec(1, 0)
    case 1 => Vec(1, -1)
    case 2 => Vec(0, -1)
    case 3 => Vec(-1, -1)
    case 4 => Vec(-1, 0)
    case 5 => Vec(-1, 1)
    case 6 => Vec(0, 1)
    case _ => Vec(1, 1)
  }

  const REC_UL: char := 's'
  const REC_UR: char := 'a'
  const REC_DL: char := 'w'
  const REC_DR: char := 'q'

  /** Fuel stations count as filled blocks. */
  predicate Filled(b: char) { b == 'x' || b == '#' }

  predicate Wall(b: char) { Filled(b) || b == REC_UL || b == REC_UR || b == REC_DL || b == REC_DR }

  /** The table inside Map.noedge: which blocks have wall in the wedge clockwise of ray d, at the
      corner of the block that ray d starts from. */
  predicate WallWedge(b: char, d: Dir) {
    match d
    case 0 => Filled(b) || b == REC_UL || b == REC_UR
    case 1 => Filled(b) || b == REC_DL || b == REC_DR
    case 2 => Filled(b) || b == REC_UL || b == REC_DL
    case 3 => Filled(b) || b == REC_UR || b == REC_DR
    case 4 => Filled(b) || b == REC_DL || b == REC_DR
    case 5 => Filled(b) || b == REC_UR || b == REC_UL
    case 6 => Filled(b) || b == REC_DR || b == REC_UR
    case _ => Filled(b) || b == REC_DL || b == REC_UL
  }

  /** The remainder of floor division by n, for either sign of a. */
  function Mod(a: int, n: nat): (r: int)
    requires 0 < n
    ensures 0 <= r < n
    decreases if a < 0 then n - a else a
  {
    if a < 0 then Mod(a + n, n) else if n <= a then Mod(a - n, n) else a
  }

  datatype Map = Map(data: seq<string>, width: nat, height: nat) {
    predicate Valid() {
      && 0 < width && 0 < height
      && height <= |data|
      && forall y :: 0 <= y < height ==> width <= |data[y]|
    }

    predicate Has(c: Cell) { 0 <= c.x < width && 0 <= c.y < height }

    function At(c: Cell): char
      requires Valid() && Has(c)
    {
      data[c.y][c.x]
    }

    /** All corners (equally, all cells) of the torus. */
    ghost function Cells(): (s: set<Cell>)
      ensures forall c :: c in s <==> Has(c)
    {
      set x, y | 0 <= x < width && 0 <= y < height :: Cell(x, y)
    }

    /** The constructor of Wrapcoords: reduce plane coordinates to the torus. */
    function Wrap(x: int, y: int): (c: Cell)
      requires Valid()
      ensures Has(c)
    {
      Cell(Mod(x, width), Mod(y, height))
    }

    /** The copying moves u(), l(), ul() ... of Wrapcoords. */
    function Go(c: Cell, d: Dir): (r: Cell)
      requires Valid()
      ensures Has(r)
    {
      Wrap(c.x + Dirs(d).dx, c.y + Dirs(d).dy)
    }

    /** The cell holding the 45 degree wedge just clockwise of ray d at corner c. */
    function WedgeCell(c: Cell, d: Dir): (r: Cell)
      requires Valid() && Has(c)
      ensures Has(r)
    {
      match d
      case 0 => c
      case 1 => Go(c, 2)
      case 2 => Go(c, 2)
      case 3 => Go(c, 3)
      case 4 => Go(c, 3)
      case 5 => Go(c, 4)
      case 6 => Go(c, 4)
      case _ => c
    }

    /** Map.noedge: is there solid wall to the right of direction d at corner c? */
    predicate NoEdge(c: Cell, d: Dir)
      requires Valid() && Has(c)
    {
      WallWedge(At(WedgeCell(c, d)), d)
    }

    /** The answers of noedge for all eight directions at one corner. */
    function Wedges(c: Cell): (w: seq<bool>)
      requires Valid() && Has(c)
      ensures |w| == 8 && forall d: Dir :: w[d] == NoEdge(c, d)
    {
      seq(8, d requires 0 <= d < 8 => NoEdge(c, d))
    }

    /** A directed boundary edge leaves corner c in direction d: wall on its left, none on its right. */
    predicate Boundary(s: Edge)
      requires Valid()
    {
      Has(s.c) && !NoEdge(s.c, s.d) && NoEdge(s.c, (s.d + 1) % 8)
    }

    ghost function BoundaryEdges(): (r: set<Edge>)
      requires Valid()
      ensures forall s :: s in r <==> Boundary(s)
    {
      set c, d: Dir | c in Cells() && Boundary(Edge(c, d)) :: Edge(c, d)
    }

    /** The wall cell on the left of an edge. */
    function LeftCell(s: Edge): (r: Cell)
      requires Valid() && Has(s.c)
      ensures Has(r)
    {
      WedgeCell(s.c, (s.d + 1) % 8)
    }
  }

  /** A directed edge of the torus: where it starts and which way it goes. */
  datatype Edge = Edge(c: Cell, d: Dir)

  // ---------------------------------------------------------------- moving on the torus

  /** Reducing early does not matter. */
  lemma {:induction false} ModAdd(a: int, b: int, n: nat)
    requires 0 < n
    ensures Mod(Mod(a, n) + b, n) == Mod(a + b, n)
    decreases if a < 0 then n - a else a
  {
    if a < 0 {
      ModAdd(a + n, b, n);
      ModShift(a + b, n);
    } else if n <= a {
      ModAdd(a - n, b, n);
      ModShift(a + b - n, n);
    }
  }

  lemma ModShift(a: int, n: nat)
    requires 0 < n
    ensures Mod(a + n, n) == Mod(a, n)
  {
    if a < 0 {
    } else {
    }
  }

  /** Mod is the remainder of floor division. */
  lemma {:induction false} ModIsRemainder(a: int, n: nat)
    requires 0 < n
    ensures Mod(a, n) == a % n
    decreases if a < 0 then n - a else a
  {
    if a < 0 {
      ModIsRemainder(a + n, n);
      RemainderShift(a, n);
    } else if n <= a {
      ModIsRemainder(a - n, n);
      RemainderShift(a - n, n);
    }
  }

  lemma RemainderShift(a: int, n: nat)
    requires 0 < n
    ensures (a + n) % n == a % n
  {
    var q := (a + n) / n;
    assert (q - 1) * n == q * n - n;
    DivUnique(q - 1, (a + n) % n, a / n, a % n, n);
  }

  lemma DivUnique(q: int, r: int, q': int, r': int, n: int)
    requires 0 <= r < n && 0 <= r' < n && q * n + r == q' * n + r'
    ensures q == q' && r == r'
  {
    assert (q' - q) * n == q' * n - q * n;
    assert (q - q') * n == q * n - q' * n;
    if q < q' {
      MulGe(q' - q, n);
    } else if q' < q {
      MulGe(q - q', n);
    }
  }

  lemma MulGe(k: int, n: int)
    requires 1 <= k && 0 < n
    ensures n <= k * n
  {
  }

  /** Moves compose: two steps whose displacements add up to (dx, dy) end where that shift ends. */
  lemma GoGo(m: Map, c: Cell, a: Dir, b: Dir)
    requires m.Valid() && m.Has(c)
    ensures m.Go(m.Go(c, a), b)
         == m.Wrap(c.x + (Dirs(a).dx + Dirs(b).dx), c.y + (Dirs(a).dy + Dirs(b).dy))
  {
    ModAdd(c.x + Dirs(a).dx, Dirs(b).dx, m.width);
    ModAdd(c.y + Dirs(a).dy, Dirs(b).dy, m.height);
  }

  lemma WrapHome(m: Map, c: Cell)
    requires m.Valid() && m.Has(c)
    ensures m.Wrap(c.x, c.y) == c
  {
  }

  /** Opposite directions undo each other. */
  lemma GoBack(m: Map, c: Cell, a: Dir)
    requires m.Valid() && m.Has(c)
    ensures m.Go(m.Go(c, a), (a + 4) % 8) == c
  {
    GoGo(m, c, a, (a + 4) % 8);
    WrapHome(m, c);
  }

  // ---------------------------------------------------------------- what NoEdge means

  /** Is the point (fx, fy) of a unit block, y down, inside the solid part of block b? */
  predicate SolidAt(b: char, fx: real, fy: real) {
    || Filled(b)
    || (b == REC_UL && fx + fy < 1.0)
    || (b == REC_DR && fx + fy > 1.0)
    || (b == REC_UR && fx > fy)
    || (b == REC_DL && fx < fy)
  }

  /** NoEdge(c, d) is exactly "the open wedge between rays d-1 and d at corner c is wall": the
      points c + t * dirs[d] + s * dirs[d-1], t and s small and positive, lie in WedgeCell(c, d)
      and are all solid there or all free there. */
  lemma NoEdgeMeaning(m: Map, c: Cell, d: Dir, t: real, s: real)
    requires m.Valid() && m.Has(c)
    requires 0.0 < t && 0.0 < s && t + s < 0.5
    ensures var p, q := Dirs(d), Dirs((d + 7) % 8);
            var ox, oy := t * (p.dx as real) + s * (q.dx as real), t * (p.dy as real) + s * (q.dy as real);
            var fx, fy := if ox < 0.0 then ox + 1.0 else ox, if oy < 0.0 then oy + 1.0 else oy;
            && 0.0 < fx < 1.0 && 0.0 < fy < 1.0
            && m.WedgeCell(c, d) == m.Wrap(c.x + (if ox < 0.0 then -1 else 0), c.y + (if oy < 0.0 then -1 else 0))
            && (m.NoEdge(c, d) <==> SolidAt(m.At(m.WedgeCell(c, d)), fx, fy))
  {
    WrapHome(m, c);
  }

  // ---------------------------------------------------------------- the successor of an edge

  /** Where the turning loop of tracepoly stops at a corner with wedges w: as far left as possible,
      starting three octants left of d; the seventh ray is taken without a further test. */
  function Turn(w: seq<bool>, d: Dir): (e: Dir)
    requires |w| == 8
  {
    if !w[(d + 3) % 8] then (d + 3) % 8
    else if !w[(d + 2) % 8] then (d + 2) % 8
    else if !w[(d + 1) % 8] then (d + 1) % 8
    else if !w[d] then d
    else if !w[(d + 7) % 8] then (d + 7) % 8
    else if !w[(d + 6) % 8] then (d + 6) % 8
    else (d + 5) % 8
  }

  /** The edge that tracepoly walks after s. */
  function Next(m: Map, s: Edge): (r: Edge)
    requires m.Valid() && m.Has(s.c)
    ensures m.Has(r.c)
  {
    var n := m.Go(s.c, s.d);
    Edge(n, Turn(m.Wedges(n), s.d))
  }

  /** Arriving in direction d, there is wall on the left and none on the right. */
  predicate Arrives(w: seq<bool>, d: Dir)
    requires |w| == 8
  {
    w[(d + 4) % 8] && !w[(d + 5) % 8]
  }

  lemma TurnLeaves(w: seq<bool>, d: Dir)
    requires |w| == 8 && Arrives(w, d)
    ensures var e := Turn(w, d); !w[e] && w[(e + 1) % 8] && e != (d + 4) % 8
  {
  }

  lemma TurnDistinctLow(w: seq<bool>, d: Dir, d': Dir)
    requires |w| == 8 && Arrives(w, d) && Arrives(w, d') && d < d' < 4
    ensures Turn(w, d) != Turn(w, d')
  {
  }

  lemma TurnDistinctHigh(w: seq<bool>, d: Dir, d': Dir)
    requires |w| == 8 && Arrives(w, d) && Arrives(w, d') && 4 <= d < d'
    ensures Turn(w, d) != Turn(w, d')
  {
  }

  lemma TurnDistinctEvenLow(w: seq<bool>, d: Dir, d': Dir)
    requires |w| == 8 && Arrives(w, d) && Arrives(w, d') && d in {0, 2} && 4 <= d'
    ensures Turn(w, d) != Turn(w, d')
  {
  }

  lemma TurnDistinctOddLow(w: seq<bool>, d: Dir, d': Dir)
    requires |w| == 8 && Arrives(w, d) && Arrives(w, d') && d in {1, 3} && 4 <= d'
    ensures Turn(w, d) != Turn(w, d')
  {
  }

  /** Different arrivals at the same corner turn to different rays. */
  lemma TurnDistinct(w: seq<bool>, d: Dir, d': Dir)
    requires |w| == 8 && Arrives(w, d) && Arrives(w, d') && d < d'
    ensures Turn(w, d) != Turn(w, d')
  {
    hide Turn, Arrives;
    if d' < 4 {
      TurnDistinctLow(w, d, d');
    } else if 4 <= d {
      TurnDistinctHigh(w, d, d');
    } else if d % 2 == 0 {
      TurnDistinctEvenLow(w, d, d');
    } else {
      TurnDistinctOddLow(w, d, d');
    }
  }

  lemma TurnInjective(w: seq<bool>, d: Dir, d': Dir)
    requires |w| == 8 && Arrives(w, d) && Arrives(w, d') && Turn(w, d) == Turn(w, d')
    ensures d == d'
  {
    if d < d' {
      TurnDistinct(w, d, d');
    } else if d' < d {
      TurnDistinct(w, d', d);
    }
  }

  /** The two wedges along an edge keep their cells when seen from the other end. */
  lemma WedgesAlong(m: Map, c: Cell, d: Dir)
    requires m.Valid() && m.Has(c)
    ensures var n := m.Go(c, d);
            && m.WedgeCell(n, (d + 4) % 8) == m.WedgeCell(c, (d + 1) % 8)
            && m.WedgeCell(n, (d + 5) % 8) == m.WedgeCell(c, d)
    ensures d % 2 == 1 ==> m.WedgeCell(c, d) == m.WedgeCell(c, (d + 1) % 8)
  {
    hide Mod;
    WrapHome(m, c);
    GoGo(m, c, d, 2);
    GoGo(m, c, d, 3);
    GoGo(m, c, d, 4);
  }

  lemma WedgeTable(d: Dir, left: char, right: char)
    requires !WallWedge(right, d) && WallWedge(left, (d + 1) % 8)
    requires d % 2 == 1 ==> left == right
    ensures WallWedge(left, (d + 4) % 8) && !WallWedge(right, (d + 5) % 8)
  {
  }

  /** An edge arrives at its far end with wall on its left and none on its right. */
  lemma Transport(m: Map, s: Edge)
    requires m.Valid() && m.Boundary(s)
    ensures Arrives(m.Wedges(m.Go(s.c, s.d)), s.d)
  {
    hide WallWedge, Map.WedgeCell, Map.Go;
    WedgesAlong(m, s.c, s.d);
    WedgeTable(s.d, m.At(m.LeftCell(s)), m.At(m.WedgeCell(s.c, s.d)));
  }

  /** The successor of a boundary edge is a boundary edge, and never the reversal. */
  lemma NextBoundary(m: Map, s: Edge)
    requires m.Valid() && m.Boundary(s)
    ensures m.Boundary(Next(m, s))
    ensures Next(m, s).d != (s.d + 4) % 8
  {
    hide Turn, Arrives, WallWedge, Map.WedgeCell, Map.NoEdge, Map.Go;
    Transport(m, s);
    TurnLeaves(m.Wedges(m.Go(s.c, s.d)), s.d);
  }

  /** No two boundary edges share a successor. */
  lemma NextInjective(m: Map, s: Edge, r: Edge)
    requires m.Valid() && m.Boundary(s) && m.Boundary(r) && Next(m, s) == Next(m, r)
    ensures s == r
  {
    Transport(m, s);
    Transport(m, r);
    TurnInjective(m.Wedges(m.Go(s.c, s.d)), s.d, r.d);
    SameStep(m, s, r);
  }

  lemma SameStep(m: Map, s: Edge, r: Edge)
    requires m.Valid() && m.Has(s.c) && m.Has(r.c)
    requires s.d == r.d && m.Go(s.c, s.d) == m.Go(r.c, r.d)
    ensures s == r
  {
    GoBack(m, s.c, s.d);
    GoBack(m, r.c, r.d);
  }
}
