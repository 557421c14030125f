/** The last part of poly_findedges: loops that run straight left or straight right around the map,
    found from column 0; and the complete result. */
module HorizontalLoops {
  import opened Basics
  import opened BlockMap
  import opened TracePoly
  import opened WallParts
  import opened BoundaryLoops
  import opened PolyPlaces
  import opened FindEdges
  import opened WrappingLoops

  /** A union of loops all of whose edges go in directions of ds. */
  ghost predicate LoopsIn(m: Map, s: set<Edge>, ds: set<Dir>)
    requires m.Valid()
  {
    Loops(m, s) && forall e :: e in s ==> e.d in ds
  }

  lemma NextWithin(m: Map, rest: set<Edge>, ds: set<Dir>, s: Edge)
    requires m.Valid() && LoopsIn(m, rest, ds) && s in rest
    ensures m.Boundary(s) && Next(m, s) in rest && Next(m, s).d in ds
    ensures Next(m, s).d != (s.d + 4) % 8 && Next(m, s).c == m.Go(s.c, s.d)
  {
    NextBoundary(m, s);
  }

  lemma SideStep(m: Map, c: Cell, d: Dir)
    requires m.Valid() && m.Has(c) && d in {0, 4}
    ensures m.Go(c, d).y == c.y
  {
  }

  /** A chain of `rest` that follows the upward edge `up` and has kept one sideways direction and its row. */
  ghost predicate Sideways(m: Map, rest: set<Edge>, up: Edge, path: seq<Edge>)
    requires m.Valid()
  {
    && up in rest && up.d == 2 && up !in path
    && Chain(m, path) && m.Has(up.c) && Next(m, up) == path[0] && SetOf(path) <= rest
    && path[0].d in {0, 4} && path[|path| - 1].d == path[0].d && path[|path| - 1].c.y == path[0].c.y
  }

  /** The edge after a sideways chain goes up from the same row, or extends the chain: were it the
      start of the chain, it would have two predecessors. */
  lemma SidewaysNext(m: Map, rest: set<Edge>, up: Edge, path: seq<Edge>)
    requires m.Valid() && LoopsIn(m, rest, UPWARD) && Sideways(m, rest, up, path)
    ensures var e := Next(m, path[|path| - 1]);
            && e in rest && e.c.y == path[0].c.y
            && (e.d != 2 ==> e !in path && Sideways(m, rest, up, path + [e]))
  {
    hide Map.NoEdge, Loops, Map.Go;
    var last := path[|path| - 1];
    assert last in SetOf(path);
    var e := Next(m, last);
    NextWithin(m, rest, UPWARD, last);
    SideStep(m, last.c, last.d);
    if e.d != 2 {
      NextWithin(m, rest, UPWARD, up);
      if e == path[0] {
        NextInjective(m, up, last);
        assert false;
      }
      ChainOn(m, path);
      SetOfExtend(path, e);
    }
  }

  lemma SetOfExtend(path: seq<Edge>, e: Edge)
    ensures SetOf(path + [e]) == SetOf(path) + {e}
  {
  }

  /** Walking sideways inside a union of loops within {0, 2, 4}, entered from an upward edge, must
      turn upward again. */
  lemma {:induction false} TurnsUp(m: Map, rest: set<Edge>, up: Edge, path: seq<Edge>) returns (r: Edge)
    requires m.Valid() && LoopsIn(m, rest, UPWARD) && Sideways(m, rest, up, path)
    ensures r in rest && r.d == 2 && r.c.y == path[0].c.y
    decreases rest - SetOf(path)
  {
    hide Map.NoEdge, Next, Loops, Map.Go, Follows;
    SidewaysNext(m, rest, up, path);
    var e := Next(m, path[|path| - 1]);
    if e.d == 2 {
      r := e;
    } else {
      SetOfExtend(path, e);
      r := TurnsUp(m, rest, up, path + [e]);
    }
  }

  lemma ChainOn(m: Map, path: seq<Edge>)
    requires m.Valid() && Chain(m, path) && Next(m, path[|path| - 1]) != path[0]
    ensures var e := Next(m, path[|path| - 1]); e !in path && Chain(m, path + [e])
  {
    ChainFresh(m, path);
    NextBoundary(m, path[|path| - 1]);
    ReadyExtend(m, path, path[0], Next(m, path[|path| - 1]));
  }

  /** From an upward edge there is another one starting in the row where it ends. */
  lemma Climb(m: Map, rest: set<Edge>, up: Edge) returns (r: Edge)
    requires m.Valid() && LoopsIn(m, rest, UPWARD) && up in rest && up.d == 2
    ensures r in rest && r.d == 2 && r.c.y == m.Go(up.c, 2).y
  {
    hide Next, Map.NoEdge, Loops, Map.Go;
    NextWithin(m, rest, UPWARD, up);
    var t := Next(m, up);
    if t.d == 2 {
      r := t;
    } else {
      NextWithin(m, rest, UPWARD, t);
      assert Sideways(m, rest, up, [t]);
      r := TurnsUp(m, rest, up, [t]);
    }
  }

  /** Climbing reaches row 0. */
  lemma {:induction false} ClimbToTop(m: Map, rest: set<Edge>, up: Edge) returns (r: Edge)
    requires m.Valid() && LoopsIn(m, rest, UPWARD) && up in rest && up.d == 2 && m.Has(up.c)
    ensures r in rest && r.d == 2 && m.Has(r.c) && m.Go(r.c, 2).y == 0
    decreases if up.c.y == 0 then m.height else up.c.y
  {
    if m.Go(up.c, 2).y == 0 {
      r := up;
    } else {
      var t := Climb(m, rest, up);
      NextWithin(m, rest, UPWARD, t);
      r := ClimbToTop(m, rest, t);
    }
  }

  /** After the scan of row 0 the uncovered loops are horizontal. */
  lemma NoUpsLeft(m: Map, covered: set<Edge>, s: Edge)
    requires m.Valid() && Loops(m, covered) && RowOk(m, covered, m.width)
    requires m.Boundary(s) && s !in covered
    ensures s.d in {0, 4}
  {
    hide Map.NoEdge, Next, Only, Loops, Map.Go;
    var rest := m.BoundaryEdges() - covered;
    RestUpward(m, covered);
    if s.d == 2 {
      var r := ClimbToTop(m, rest, s);
      TopUp(m, r);
      assert false;
    }
  }

  lemma TopUp(m: Map, r: Edge)
    requires m.Valid() && m.Has(r.c) && r.d == 2 && m.Go(r.c, 2).y == 0
    ensures 0 <= m.Go(r.c, 2).x < m.width && r == UpEdge(m, Cell(m.Go(r.c, 2).x, 0))
  {
    hide Map.Go;
    GoBack(m, r.c, 2);
  }

  lemma RestUpward(m: Map, covered: set<Edge>)
    requires m.Valid() && Loops(m, covered) && LeaversCovered(m, covered)
    ensures LoopsIn(m, m.BoundaryEdges() - covered, UPWARD)
  {
    hide Map.NoEdge, Next, Loops;
    LoopsRest(m, covered);
    forall s | s in m.BoundaryEdges() - covered
      ensures s.d in UPWARD
    {
      assert Only(m, UPWARD, s);
    }
  }

  // ---------------------------------------------------------------- the scan of column 0

  /** The leftward edge along the top of block (0, y), and the rightward edge along its bottom. */
  function TopEdge(m: Map, y: int): Edge
    requires m.Valid() && 0 <= y < m.height
  {
    Edge(m.Go(Cell(0, y), 0), 4)
  }

  function BottomEdge(m: Map, y: int): Edge
    requires m.Valid() && 0 <= y < m.height
  {
    Edge(m.Go(Cell(0, y), 6), 0)
  }

  /** The state of the scan of column 0: leftward loops are covered exactly below row `tops`, rightward
      loops exactly below row `bottoms`, counted by the row of wall they bound. */
  ghost predicate ColumnOk(m: Map, covered: set<Edge>, tops: int, bottoms: int)
    requires m.Valid() && 0 <= tops <= m.height && 0 <= bottoms <= m.height
  {
    && (forall s :: m.Boundary(s) && s !in covered ==> s.d in {0, 4})
    && BelowAll(m, covered, tops, bottoms)
    && (forall y :: 0 <= y < tops && m.Boundary(TopEdge(m, y)) ==> TopEdge(m, y) in covered)
    && (forall y :: 0 <= y < bottoms && m.Boundary(BottomEdge(m, y)) ==> BottomEdge(m, y) in covered)
  }

  ghost predicate StraightBelow(m: Map, s: Edge, d: Dir, y: int)
    requires m.Valid() && m.Has(s.c)
  {
    Only(m, {d}, s) ==> m.LeftCell(s).y < y
  }

  lemma ColumnStart(m: Map, covered: set<Edge>)
    requires m.Valid() && Loops(m, covered) && RowOk(m, covered, m.width)
    ensures ColumnOk(m, covered, 0, 0)
  {
    hide Map.NoEdge, Next, Only, Loops, Map.Go;
    forall s | m.Boundary(s) && s !in covered
      ensures s.d in {0, 4}
    {
      NoUpsLeft(m, covered, s);
    }
    forall s | s in covered && m.Has(s.c)
      ensures StraightBelow(m, s, 4, 0) && StraightBelow(m, s, 0, 0)
    {
      if Only(m, {4}, s) {
        OnlyFewer(m, {4}, {0, 4}, s);
      }
      if Only(m, {0}, s) {
        OnlyFewer(m, {0}, {0, 4}, s);
      }
    }
  }

  /** Uncovered edges stay uncovered, and keep their direction. */
  lemma StraightOn(m: Map, covered: set<Edge>, s: Edge)
    requires m.Valid() && Loops(m, covered)
    requires forall r :: m.Boundary(r) && r !in covered ==> r.d in {0, 4}
    requires m.Boundary(s) && s !in covered
    ensures var r := Next(m, s); m.Boundary(r) && r !in covered && r.d == s.d && r.c == m.Go(s.c, s.d)
  {
    hide Map.Boundary, Map.Go, Turn;
    NextBoundary(m, s);
    BoundaryPlace(m, s);
  }

  lemma BoundaryPlace(m: Map, s: Edge)
    requires m.Valid() && m.Boundary(s)
    ensures m.Has(s.c)
  {
  }

  lemma TopBoundary(m: Map, y: int)
    requires m.Valid() && 0 <= y < m.height
    ensures var c := Cell(0, y);
            var b, u := m.At(c), m.At(m.Go(c, 2));
            m.Boundary(TopEdge(m, y)) <==>
              (Filled(b) || b == REC_UR || b == REC_UL) && !(Filled(u) || u == REC_DL || u == REC_DR)
    ensures m.LeftCell(TopEdge(m, y)) == Cell(0, y)
  {
    hide Mod;
    GoGo(m, Cell(0, y), 0, 3);
    AroundCell(m, Cell(0, y));
  }

  lemma BottomBoundary(m: Map, y: int)
    requires m.Valid() && 0 <= y < m.height
    ensures var c := Cell(0, y);
            var b, u := m.At(c), m.At(m.Go(c, 6));
            m.Boundary(BottomEdge(m, y)) <==>
              (Filled(b) || b == REC_DL || b == REC_DR) && !(Filled(u) || u == REC_UL || u == REC_UR)
    ensures m.LeftCell(BottomEdge(m, y)) == Cell(0, y)
  {
    hide Mod;
    AroundCell(m, Cell(0, y));
  }

  /** An uncovered edge lies on loops within {0, 4}. */
  lemma UncoveredOnly(m: Map, covered: set<Edge>, s: Edge)
    requires m.Valid() && Loops(m, covered) && m.Boundary(s) && s !in covered
    requires forall r :: m.Boundary(r) && r !in covered ==> r.d in {0, 4}
    ensures Only(m, {0, 4}, s)
  {
    hide Map.NoEdge, Next, Loops;
    LoopsRest(m, covered);
    assert OnlyIn(m, {0, 4}, s, m.BoundaryEdges() - covered);
  }

  /** Along a diagonal block a horizontal edge is on a loop that is not horizontal. */
  lemma TopDiagonal(m: Map, y: int)
    requires m.Valid() && 0 <= y < m.height && m.Boundary(TopEdge(m, y)) && !Filled(m.At(Cell(0, y)))
    ensures !Only(m, {0, 4}, TopEdge(m, y))
  {
    hide Only, Next, Map.Go;
    var c, s := Cell(0, y), TopEdge(m, y);
    TopBoundary(m, y);
    AroundCell(m, c);
    if m.At(c) == REC_UR {
      FirstRay(m, s);
      NotOnly(m, {0, 4}, s);
    } else {
      var k := Edge(m.Go(c, 6), 1);
      KeyIsBoundary(m, c);
      UpRight(m, c);
      FirstRay(m, k);
      NotOnly(m, {0, 4}, k);
    }
  }

  lemma UpRight(m: Map, c: Cell)
    requires m.Valid() && m.Has(c)
    ensures m.Go(m.Go(c, 6), 1) == m.Go(c, 0) && m.Go(m.Go(c, 0), 5) == m.Go(c, 6) && m.Go(m.Go(c, 6), 0) == m.Go(c, 7)
  {
    hide Mod;
    GoGo(m, c, 6, 1);
    GoGo(m, c, 0, 5);
    GoGo(m, c, 6, 0);
  }

  lemma BottomDiagonal(m: Map, y: int)
    requires m.Valid() && 0 <= y < m.height && m.Boundary(BottomEdge(m, y)) && !Filled(m.At(Cell(0, y)))
    ensures !Only(m, {0, 4}, BottomEdge(m, y))
  {
    hide Only, Next, Map.Go;
    var c, s := Cell(0, y), BottomEdge(m, y);
    BottomBoundary(m, y);
    AroundCell(m, c);
    UpRight(m, c);
    if m.At(c) == REC_DL {
      FirstRay(m, s);
      NotOnly(m, {0, 4}, s);
    } else {
      var k := Edge(m.Go(c, 0), 5);
      KeyIsBoundary(m, c);
      FirstRay(m, k);
      NotOnly(m, {0, 4}, k);
    }
  }

  lemma {:induction false} StraightRow(m: Map, path: seq<Edge>, d: Dir, i: nat)
    requires m.Valid() && Chain(m, path) && i < |path| && d in {0, 4} && forall s :: s in path ==> s.d == d
    ensures m.Has(path[i].c) && m.Has(path[0].c) && m.LeftCell(path[i]).y == m.LeftCell(path[0]).y
    decreases i
  {
    hide Map.NoEdge, Next, Map.Go, Map.WedgeCell;
    if 0 < i {
      assert Follows(m, path, i - 1);
      StraightRow(m, path, d, i - 1);
      StraightLeft(m, path[i - 1]);
    }
  }

  lemma StraightLeft(m: Map, s: Edge)
    requires m.Valid() && m.Has(s.c) && s.d in {0, 4} && Next(m, s).d == s.d
    ensures m.LeftCell(Next(m, s)).y == m.LeftCell(s).y
  {
    hide Turn, Map.NoEdge;
    var n := m.Go(s.c, s.d);
    assert Next(m, s).c == n && n.y == s.c.y;
  }

  /** A horizontal cycle whose row has not been scanned is new. */
  lemma StraightFresh(m: Map, covered: set<Edge>, path: seq<Edge>, d: Dir, y: int)
    requires m.Valid() && Cycle(m, path) && m.Has(path[0].c) && forall s :: s in path ==> s.d == d
    requires forall s :: s in covered && m.Has(s.c) ==> StraightBelow(m, s, d, y)
    requires m.LeftCell(path[0]).y == y
    ensures path[0] !in covered
  {
    hide Map.NoEdge, Next, Chain, Map.WedgeCell, Loops;
    CycleIsLoop(m, path);
    CycleIsChain(m, path);
    ChainStarts(m, path);
    assert OnlyIn(m, {d}, path[0], SetOf(path));
  }

  /** A horizontal trace that had to turn started on a covered edge. */
  lemma StraightFailed(m: Map, covered: set<Edge>, path: seq<Edge>, d: Dir)
    requires m.Valid() && Loops(m, covered) && Chain(m, path) && forall s :: s in path ==> s.d == d
    requires forall r :: m.Boundary(r) && r !in covered ==> r.d in {0, 4}
    requires Next(m, path[|path| - 1]).d != d
    ensures path[0] in covered
  {
    hide Map.NoEdge, Next, Follows;
    var rest := m.BoundaryEdges() - covered;
    ChainStarts(m, path);
    assert path[|path| - 1] in path && path[|path| - 1] in SetOf(path);
    if path[0] !in covered {
      RestIsLoops(m, covered);
      ChainInside(m, path, rest, path[0]);
      StraightOn(m, covered, path[|path| - 1]);
      assert false;
    }
  }

  lemma RestIsLoops(m: Map, covered: set<Edge>)
    requires m.Valid() && Loops(m, covered)
    ensures Loops(m, m.BoundaryEdges() - covered)
  {
    LoopsRest(m, covered);
  }

  lemma StraightAlong(m: Map, path: seq<Edge>, d: Dir, y: int, s: Edge, tops: int, bottoms: int)
    requires m.Valid() && Chain(m, path) && d in {0, 4} && forall r :: r in path ==> r.d == d
    requires s in SetOf(path) && m.Has(s.c) && m.Has(path[0].c) && m.LeftCell(path[0]).y == y
    requires y < if d == 4 then tops else bottoms
    ensures StraightBelow(m, s, 4, tops) && StraightBelow(m, s, 0, bottoms)
  {
    hide Map.NoEdge, Next, Map.Go, Map.WedgeCell, Only, Follows;
    var i :| 0 <= i < |path| && path[i] == s;
    StraightRow(m, path, d, i);
    OnlyHas(m, {4}, s);
    OnlyHas(m, {0}, s);
  }

  lemma BelowMore(m: Map, s: Edge, d: Dir, y: int)
    requires m.Valid() && m.Has(s.c) && StraightBelow(m, s, d, y)
    ensures StraightBelow(m, s, d, y + 1)
  {
    hide Only;
  }

  ghost predicate BelowAll(m: Map, covered: set<Edge>, tops: int, bottoms: int)
    requires m.Valid()
  {
    forall s :: s in covered && m.Has(s.c) ==> StraightBelow(m, s, 4, tops) && StraightBelow(m, s, 0, bottoms)
  }

  lemma BelowAllMore(m: Map, covered: set<Edge>, tops: int, bottoms: int)
    requires m.Valid() && BelowAll(m, covered, tops, bottoms)
    ensures BelowAll(m, covered, tops + 1, bottoms) && BelowAll(m, covered, tops, bottoms + 1)
  {
    hide StraightBelow;
    forall s | s in covered && m.Has(s.c)
      ensures StraightBelow(m, s, 4, tops + 1) && StraightBelow(m, s, 0, bottoms + 1)
    {
      BelowMore(m, s, 4, tops);
      BelowMore(m, s, 0, bottoms);
    }
  }

  lemma BelowAllPath(m: Map, covered: set<Edge>, tops: int, bottoms: int, path: seq<Edge>, d: Dir)
    requires m.Valid() && BelowAll(m, covered, tops, bottoms)
    requires Chain(m, path) && d in {0, 4} && forall r :: r in path ==> r.d == d
    requires m.Has(path[0].c) && m.LeftCell(path[0]).y < if d == 4 then tops else bottoms
    ensures BelowAll(m, covered + SetOf(path), tops, bottoms)
  {
    hide StraightBelow, Chain, Map.LeftCell, SetOf;
    ChainStarts(m, path);
    forall s | s in SetOf(path) && m.Has(s.c)
      ensures StraightBelow(m, s, 4, tops) && StraightBelow(m, s, 0, bottoms)
    {
      StraightAlong(m, path, d, m.LeftCell(path[0]).y, s, tops, bottoms);
    }
  }

  lemma OnlyHas(m: Map, ds: set<Dir>, s: Edge)
    requires m.Valid()
    ensures Only(m, ds, s) ==> s.d in ds
  {
    hide Loops;
  }

  lemma ColumnNextTop(m: Map, covered: set<Edge>, y: int)
    requires m.Valid() && 0 <= y < m.height && ColumnOk(m, covered, y, y)
    requires m.Boundary(TopEdge(m, y)) ==> TopEdge(m, y) in covered
    ensures ColumnOk(m, covered, y + 1, y)
  {
    hide Map.Boundary, BelowAll, TopEdge, BottomEdge;
    BelowAllMore(m, covered, y, y);
  }

  lemma ColumnNextBottom(m: Map, covered: set<Edge>, y: int)
    requires m.Valid() && 0 <= y < m.height && ColumnOk(m, covered, y + 1, y)
    requires m.Boundary(BottomEdge(m, y)) ==> BottomEdge(m, y) in covered
    ensures ColumnOk(m, covered, y + 1, y + 1)
  {
    hide Map.Boundary, BelowAll, TopEdge, BottomEdge;
    BelowAllMore(m, covered, y + 1, y);
  }

  /** The tests of the column scan on the blocks. */
  predicate StartsTop(m: Map, y: int)
    requires m.Valid() && 0 <= y < m.height
  {
    var u := m.At(m.Go(Cell(0, y), 2));
    Filled(m.At(Cell(0, y))) && !(Filled(u) || u == REC_DL || u == REC_DR)
  }

  predicate StartsBottom(m: Map, y: int)
    requires m.Valid() && 0 <= y < m.height
  {
    var u := m.At(m.Go(Cell(0, y), 6));
    Filled(m.At(Cell(0, y))) && !(Filled(u) || u == REC_UR || u == REC_UL)
  }

  lemma TopSkip(m: Map, covered: set<Edge>, y: int)
    requires m.Valid() && 0 <= y < m.height && ColumnOk(m, covered, y, y) && Loops(m, covered) && !StartsTop(m, y)
    ensures ColumnOk(m, covered, y + 1, y)
  {
    hide Only, Map.Boundary, StraightBelow, Loops, TopEdge, BottomEdge;
    TopBoundary(m, y);
    if m.Boundary(TopEdge(m, y)) && TopEdge(m, y) !in covered {
      UncoveredOnly(m, covered, TopEdge(m, y));
      TopDiagonal(m, y);
      assert false;
    }
    ColumnNextTop(m, covered, y);
  }

  lemma BottomSkip(m: Map, covered: set<Edge>, y: int)
    requires m.Valid() && 0 <= y < m.height && ColumnOk(m, covered, y + 1, y) && Loops(m, covered)
             && !StartsBottom(m, y)
    ensures ColumnOk(m, covered, y + 1, y + 1)
  {
    hide Only, Map.Boundary, StraightBelow, Loops, TopEdge, BottomEdge;
    BottomBoundary(m, y);
    if m.Boundary(BottomEdge(m, y)) && BottomEdge(m, y) !in covered {
      UncoveredOnly(m, covered, BottomEdge(m, y));
      BottomDiagonal(m, y);
      assert false;
    }
    ColumnNextBottom(m, covered, y);
  }

  /** Covering the horizontal loop of the top or bottom edge of block (0, y). */
  lemma ColumnMore(m: Map, covered: set<Edge>, tops: int, y: int, path: seq<Edge>, d: Dir)
    requires m.Valid() && 0 <= y < m.height && d in {0, 4} && tops == (if d == 4 then y else y + 1)
    requires ColumnOk(m, covered, tops, y)
    requires Chain(m, path) && path[0] == (if d == 4 then TopEdge(m, y) else BottomEdge(m, y))
    requires forall s :: s in path ==> s.d == d
    requires m.Has(path[0].c) && m.LeftCell(path[0]).y == y
    ensures ColumnOk(m, covered + SetOf(path), y + 1, if d == 4 then y else y + 1)
  {
    hide Map.Boundary, BelowAll, TopEdge, BottomEdge, Chain, SetOf, Map.LeftCell;
    ChainStarts(m, path);
    BelowAllMore(m, covered, tops, y);
    BelowAllPath(m, covered, y + 1, if d == 4 then y else y + 1, path, d);
  }

  /** What a restricted trace along the top of block (0, y) does to the state. */
  lemma TopTraced(m: Map, covered: set<Edge>, y: int, found: bool, path: seq<Edge>)
    requires m.Valid() && 0 <= y < m.height && ColumnOk(m, covered, y, y) && Loops(m, covered)
    requires Chain(m, path) && path[0] == TopEdge(m, y) && forall s :: s in path ==> s.d == 4
    requires if found then Cycle(m, path) else Next(m, path[|path| - 1]).d != 4
    ensures found ==> path[0] !in covered
    ensures ColumnOk(m, if found then covered + SetOf(path) else covered, y + 1, y)
  {
    hide Map.NoEdge, Next, Map.WedgeCell, StraightBelow, BottomEdge, Chain, SetOf, Loops;
    TopBoundary(m, y);
    ChainStarts(m, path);
    if found {
      StraightFresh(m, covered, path, 4, y);
      ColumnMore(m, covered, y, y, path, 4);
    } else {
      StraightFailed(m, covered, path, 4);
      ColumnNextTop(m, covered, y);
    }
  }

  lemma BottomTraced(m: Map, covered: set<Edge>, y: int, found: bool, path: seq<Edge>)
    requires m.Valid() && 0 <= y < m.height && ColumnOk(m, covered, y + 1, y) && Loops(m, covered)
    requires Chain(m, path) && path[0] == BottomEdge(m, y) && forall s :: s in path ==> s.d == 0
    requires if found then Cycle(m, path) else Next(m, path[|path| - 1]).d != 0
    ensures found ==> path[0] !in covered
    ensures ColumnOk(m, if found then covered + SetOf(path) else covered, y + 1, y + 1)
  {
    hide Map.NoEdge, Next, Map.WedgeCell, StraightBelow, TopEdge, Chain, SetOf, Loops;
    BottomBoundary(m, y);
    ChainStarts(m, path);
    if found {
      StraightFresh(m, covered, path, 0, y);
      ColumnMore(m, covered, y + 1, y, path, 0);
    } else {
      StraightFailed(m, covered, path, 0);
      ColumnNextBottom(m, covered, y);
    }
  }

  // ---------------------------------------------------------------- nothing is left

  lemma GoAcross(m: Map, c: Cell)
    requires m.Valid() && m.Has(c)
    ensures m.Go(c, 4) == Cell(if c.x == 0 then m.width - 1 else c.x - 1, c.y)
    ensures m.Go(c, 0) == Cell(if c.x == m.width - 1 then 0 else c.x + 1, c.y)
  {
    assert Mod(m.width - 1, m.width) == m.width - 1 && Mod(0, m.width) == 0;
  }

  lemma BottomAt(m: Map, c: Cell)
    requires m.Valid() && m.Has(c) && c.x == 0
    ensures 0 <= m.Go(c, 2).y < m.height && BottomEdge(m, m.Go(c, 2).y).c == c
  {
    GoBack(m, c, 2);
  }

  /** Leftward edges slide to column 0, ... */
  lemma {:induction false} SlideLeft(m: Map, covered: set<Edge>, s: Edge)
    requires m.Valid() && Loops(m, covered) && ColumnOk(m, covered, m.height, m.height)
    requires m.Boundary(s) && s.d == 4
    ensures s in covered
    decreases if s.c.x == 0 then m.width else s.c.x
  {
    hide Map.NoEdge, Next, Map.WedgeCell, BelowAll, BottomEdge, Loops, Map.Go;
    GoAcross(m, s.c);
    GoAcross(m, Cell(0, s.c.y));
    if s !in covered && s != TopEdge(m, s.c.y) {
      StraightOn(m, covered, s);
      SlideLeft(m, covered, Next(m, s));
    }
  }

  /** ... and rightward ones do. */
  lemma {:induction false} SlideRight(m: Map, covered: set<Edge>, s: Edge)
    requires m.Valid() && Loops(m, covered) && ColumnOk(m, covered, m.height, m.height)
    requires m.Boundary(s) && s.d == 0
    ensures s in covered
    decreases if s.c.x == 0 then 0 else m.width - s.c.x
  {
    hide Map.NoEdge, Next, Map.WedgeCell, BelowAll, TopEdge, Loops, Map.Go;
    GoAcross(m, s.c);
    if s.c.x == 0 {
      BottomAt(m, s.c);
    } else if s !in covered {
      StraightOn(m, covered, s);
      SlideRight(m, covered, Next(m, s));
    }
  }

  lemma AllCovered(m: Map, covered: set<Edge>)
    requires m.Valid() && Loops(m, covered) && ColumnOk(m, covered, m.height, m.height)
    ensures covered == m.BoundaryEdges()
  {
    hide Map.NoEdge, Next, BelowAll, TopEdge, BottomEdge;
    forall s | m.Boundary(s)
      ensures s in covered
    {
      if s !in covered {
        if s.d == 4 {
          SlideLeft(m, covered, s);
        } else {
          SlideRight(m, covered, s);
        }
      }
    }
  }

  // ---------------------------------------------------------------- the methods

  ghost predicate ColumnScan(m: Map, labels: map<Cell, Label>, partPolys: seq<seq<Polygon>>, covered: set<Edge>,
                             tops: int, bottoms: int)
    requires m.Valid() && 0 <= tops <= m.height && 0 <= bottoms <= m.height
  {
    ColumnOk(m, covered, tops, bottoms) && Emitted(m, labels, partPolys, covered)
  }

  /** A trace that starts at edge s, restricted to its direction, and what it found. */
  ghost predicate StraightTrace(m: Map, s: Edge, poly: Option<Polygon>, path: seq<Edge>)
    requires m.Valid()
  {
    && Chain(m, path) && path[0] == s && (forall e :: e in path ==> e.d == s.d)
    && (poly.Some? ==> Traced(m, poly.value) && EdgesOf(m, poly.value) == path)
    && (poly.None? ==> Next(m, path[|path| - 1]).d != s.d)
  }

  lemma EmitStraight(m: Map, labels: map<Cell, Label>, seeds: seq<Cell>, partPolys: seq<seq<Polygon>>,
                     covered: set<Edge>,
                     s: Edge, poly: Option<Polygon>, path: seq<Edge>, p: nat)
    requires m.Valid() && IsPartition(m, labels, seeds) && Emitted(m, labels, partPolys, covered)
    requires StraightTrace(m, s, poly, path) && poly.Some? && s !in covered
    requires p < |partPolys| && m.Has(s.c) && PartOf(m, labels, s) == p
    ensures Emitted(m, labels, partPolys[p := partPolys[p] + [poly.value]], covered + SetOf(path))
  {
    hide IsPartition, Emitted, Chain, Traced, EdgesOf, SetOf, PartOf;
    Emit(m, labels, seeds, partPolys, covered, poly.value, path, p);
  }

  lemma TopStep(m: Map, labels: map<Cell, Label>, seeds: seq<Cell>, partPolys: seq<seq<Polygon>>, covered: set<Edge>,
                y: nat, poly: Option<Polygon>, path: seq<Edge>, p: nat)
    requires m.Valid() && y < m.height && IsPartition(m, labels, seeds)
             && ColumnScan(m, labels, partPolys, covered, y, y)
    requires StraightTrace(m, TopEdge(m, y), poly, path)
    requires p < |partPolys| && PartOf(m, labels, TopEdge(m, y)) == p
    ensures if poly.Some?
            then ColumnScan(m, labels, partPolys[p := partPolys[p] + [poly.value]], covered + SetOf(path), y + 1, y)
            else ColumnScan(m, labels, partPolys, covered, y + 1, y)
  {
    hide IsPartition, Chain, ListsOk, Loops, EdgesOf, SetOf, ColumnOk, PartOf, Next, Map.Boundary;
    TopTraced(m, covered, y, poly.Some?, path);
    if poly.Some? {
      EmitStraight(m, labels, seeds, partPolys, covered, TopEdge(m, y), poly, path, p);
    }
  }

  lemma BottomStep(m: Map, labels: map<Cell, Label>, seeds: seq<Cell>, partPolys: seq<seq<Polygon>>, covered: set<Edge>,
                   y: nat, poly: Option<Polygon>, path: seq<Edge>, p: nat)
    requires m.Valid() && y < m.height && IsPartition(m, labels, seeds)
             && ColumnScan(m, labels, partPolys, covered, y + 1, y)
    requires StraightTrace(m, BottomEdge(m, y), poly, path)
    requires p < |partPolys| && PartOf(m, labels, BottomEdge(m, y)) == p
    ensures if poly.Some?
            then ColumnScan(m, labels, partPolys[p := partPolys[p] + [poly.value]], covered + SetOf(path), y + 1, y + 1)
            else ColumnScan(m, labels, partPolys, covered, y + 1, y + 1)
  {
    hide IsPartition, Chain, ListsOk, Loops, EdgesOf, SetOf, ColumnOk, PartOf, Next, Map.Boundary;
    BottomTraced(m, covered, y, poly.Some?, path);
    if poly.Some? {
      EmitStraight(m, labels, seeds, partPolys, covered, BottomEdge(m, y), poly, path, p);
    }
  }

  lemma ColumnSkips(m: Map, labels: map<Cell, Label>, partPolys: seq<seq<Polygon>>, covered: set<Edge>, y: nat)
    requires m.Valid() && y < m.height
    ensures ColumnScan(m, labels, partPolys, covered, y, y) && !StartsTop(m, y) ==>
              ColumnScan(m, labels, partPolys, covered, y + 1, y)
    ensures ColumnScan(m, labels, partPolys, covered, y + 1, y) && !StartsBottom(m, y) ==>
              ColumnScan(m, labels, partPolys, covered, y + 1, y + 1)
  {
    hide ColumnOk, ListsOk, Loops, StartsTop, StartsBottom;
    if ColumnScan(m, labels, partPolys, covered, y, y) && !StartsTop(m, y) {
      TopSkip(m, covered, y);
    }
    if ColumnScan(m, labels, partPolys, covered, y + 1, y) && !StartsBottom(m, y) {
      BottomSkip(m, covered, y);
    }
  }

  /** The two possible starts at block (0, y), from its unwrapped position. */
  lemma SideCorners(m: Map, labels: map<Cell, Label>, seeds: seq<Cell>, y: nat)
    requires m.Valid() && y < m.height && IsPartition(m, labels, seeds) && Filled(m.At(Cell(0, y)))
    ensures var c := Cell(0, y);
            && c in labels && labels[c].part < |seeds|
            && Edge(m.Wrap(labels[c].ux + 1, labels[c].uy), 4) == TopEdge(m, y)
            && Edge(m.Wrap(labels[c].ux, labels[c].uy + 1), 0) == BottomEdge(m, y)
            && PartOf(m, labels, TopEdge(m, y)) == labels[c].part
            && PartOf(m, labels, BottomEdge(m, y)) == labels[c].part
    ensures StartsTop(m, y) ==> m.Boundary(TopEdge(m, y))
    ensures StartsBottom(m, y) ==> m.Boundary(BottomEdge(m, y))
  {
    hide IsPartition, Map.Wrap, Map.Go, Map.Boundary, Map.LeftCell;
    var c := Cell(0, y);
    TopBoundary(m, y);
    BottomBoundary(m, y);
    LabelCorner(m, labels, seeds, c);
    assert m.Wrap(labels[c].ux + Dirs(0).dx, labels[c].uy + Dirs(0).dy) == m.Go(c, 0);
    assert m.Wrap(labels[c].ux + Dirs(6).dx, labels[c].uy + Dirs(6).dy) == m.Go(c, 6);
  }

  /** Tracing straight from edge s, given by an unwrapped corner. */
  method TraceStraight(m: Map, done: array2<int>, x: int, y: int, d: Dir, ghost s: Edge)
    returns (poly: Option<Polygon>, ghost path: seq<Edge>)
    requires m.Valid() && done.Length0 == m.height && done.Length1 == m.width
    requires s == Edge(m.Wrap(x, y), d) && m.Boundary(s) && d in {0, 4}
    modifies done
    ensures StraightTrace(m, s, poly, path)
    ensures poly.Some? && 0 < |poly.value| ==> poly.value[0] == Point(x, y, Dirs(d))
  {
    hide Map.NoEdge, Next, Chain, Traced, Marks, After, EdgesOf, Map.Wrap;
    poly, path := Trace(m, done, x, y, d, Some({d}));
  }

  lemma SidesBeside(x: int, y: int)
    ensures LeftPos(Point(x + 1, y, Dirs(4))) == Pos(x, y) && LeftPos(Point(x, y + 1, Dirs(0))) == Pos(x, y)
  {
  }

  lemma StraightTraced(m: Map, s: Edge, poly: Option<Polygon>, path: seq<Edge>)
    requires m.Valid() && StraightTrace(m, s, poly, path) && poly.Some?
    ensures Traced(m, poly.value)
  {
  }

  /** The two tests at block (0, y). */
  method ScanSide(m: Map, parts: array2<Option<Label>>, done: array2<int>, y: nat, partPolys0: seq<seq<Polygon>>,
                  ghost labels: map<Cell, Label>, ghost seeds: seq<Cell>, ghost covered0: set<Edge>)
    returns (partPolys: seq<seq<Polygon>>, ghost covered: set<Edge>)
    requires m.Valid() && y < m.height && parts.Length0 == done.Length0 == m.height
             && parts.Length1 == done.Length1 == m.width
    requires labels == Labels(m, parts) && IsPartition(m, labels, seeds) && |partPolys0| == |seeds|
    requires ColumnScan(m, labels, partPolys0, covered0, y, y) && AllInPlace(m, seeds, partPolys0)
    modifies done
    ensures ColumnScan(m, labels, partPolys, covered, y + 1, y + 1) && |partPolys| == |partPolys0|
    ensures AllInPlace(m, seeds, partPolys)
  {
    hide ColumnScan, IsPartition, Map.Go, Map.Boundary, Labels, StartsTop, StartsBottom, TopEdge, BottomEdge, PartOf,
         Map.Wrap, StraightTrace, SetOf, Filled, AllInPlace, LeftPos, Traced;
    partPolys, covered := partPolys0, covered0;
    var c := Cell(0, y);
    StartsFilled(m, y);
    ColumnSkips(m, labels, partPolys, covered, y);
    if StartsTop(m, y) {
      SideCorners(m, labels, seeds, y);
      LabelAt(m, parts, labels, c);
      var sl := parts[c.y, c.x].value;
      var poly, path := TraceStraight(m, done, sl.ux + 1, sl.uy, 4, TopEdge(m, y));
      TopStep(m, labels, seeds, partPolys, covered, y, poly, path, sl.part);
      if poly.Some? {
        SidesBeside(sl.ux, sl.uy);
        StraightTraced(m, TopEdge(m, y), poly, path);
        PlaceTraced(m, labels, seeds, c, partPolys, poly.value);
        partPolys := partPolys[sl.part := partPolys[sl.part] + [poly.value]];
        covered := covered + SetOf(path);
      }
    }
    ColumnSkips(m, labels, partPolys, covered, y);
    if StartsBottom(m, y) {
      SideCorners(m, labels, seeds, y);
      LabelAt(m, parts, labels, c);
      var sl := parts[c.y, c.x].value;
      var poly, path := TraceStraight(m, done, sl.ux, sl.uy + 1, 0, BottomEdge(m, y));
      BottomStep(m, labels, seeds, partPolys, covered, y, poly, path, sl.part);
      if poly.Some? {
        SidesBeside(sl.ux, sl.uy);
        StraightTraced(m, BottomEdge(m, y), poly, path);
        PlaceTraced(m, labels, seeds, c, partPolys, poly.value);
        partPolys := partPolys[sl.part := partPolys[sl.part] + [poly.value]];
        covered := covered + SetOf(path);
      }
    }
  }

  lemma StartsFilled(m: Map, y: int)
    requires m.Valid() && 0 <= y < m.height
    ensures m.Has(Cell(0, y))
    ensures StartsTop(m, y) || StartsBottom(m, y) ==> Filled(m.At(Cell(0, y)))
  {
  }

  lemma FromRow(m: Map, labels: map<Cell, Label>, partPolys: seq<seq<Polygon>>, covered: set<Edge>,
                marks: map<Cell, int>)
    requires m.Valid()
    ensures Scanning(m, labels, partPolys, covered, marks)
            && (forall s :: m.Boundary(s) ==> (s in covered <==> !Only(m, UPWARD, s)))
            ==> RowScan(m, labels, partPolys, covered, marks, 0)
    ensures RowScan(m, labels, partPolys, covered, marks, m.width) ==> ColumnScan(m, labels, partPolys, covered, 0, 0)
  {
    hide MarksOk, ListsOk, UpsOk, RowOk, ColumnOk, Map.Boundary, Only, Loops;
    if Scanning(m, labels, partPolys, covered, marks)
       && forall s :: m.Boundary(s) ==> (s in covered <==> !Only(m, UPWARD, s)) {
      RowStart(m, marks, covered);
    }
    if RowScan(m, labels, partPolys, covered, marks, m.width) {
      ColumnStart(m, covered);
    }
  }

  /** What the polygon lists of poly_findedges are: for every part, closed walks that together use
      every boundary edge of that part exactly once. */
  ghost predicate ExactCoverage(m: Map, labels: map<Cell, Label>, partPolys: seq<seq<Polygon>>)
    requires m.Valid()
  {
    forall p :: 0 <= p < |partPolys| ==>
      PolyBag(m, partPolys[p]) == multiset(PartBoundary(m, labels, p)) && AllTraced(m, partPolys[p])
  }

  lemma Finish(m: Map, labels: map<Cell, Label>, partPolys: seq<seq<Polygon>>, covered: set<Edge>)
    requires m.Valid() && ColumnScan(m, labels, partPolys, covered, m.height, m.height)
    ensures ExactCoverage(m, labels, partPolys)
  {
    hide ColumnOk, Map.Boundary, Loops, PolyBag, AllTraced, PartOf;
    AllCovered(m, covered);
    forall p | 0 <= p < |partPolys|
      ensures PolyBag(m, partPolys[p]) == multiset(PartBoundary(m, labels, p)) && AllTraced(m, partPolys[p])
    {
      assert ListOk(m, labels, partPolys[p], covered, p);
      ShareAll(m, labels, p);
    }
  }

  lemma ShareAll(m: Map, labels: map<Cell, Label>, p: int)
    requires m.Valid()
    ensures Share(m, labels, m.BoundaryEdges(), p) == PartBoundary(m, labels, p)
  {
    hide PartOf, Map.NoEdge;
  }

  /** poly_findedges. */
  method PolyFindEdges(m: Map, parts: array2<Option<Label>>, partcount: nat, ghost seeds: seq<Cell>)
    returns (partPolys: seq<seq<Polygon>>)
    requires m.Valid() && parts.Length0 == m.height && parts.Length1 == m.width && partcount == |seeds|
    requires IsPartition(m, Labels(m, parts), seeds)
    ensures |partPolys| == partcount && ExactCoverage(m, Labels(m, parts), partPolys)
    ensures AllInPlace(m, seeds, partPolys)
  {
    hide IsPartition, Labels, Scanning, RowScan, ColumnScan, ExactCoverage, Marks, Map.Boundary, Only,
         AllInPlace;
    var done := new int[m.height, m.width]((i, j) => 0);
    ghost var labels := Labels(m, parts);
    ghost var covered;
    partPolys, covered := ScanBlocks(m, parts, done, partcount, labels, seeds);
    FromRow(m, labels, partPolys, covered, Marks(m, done));
    partPolys, covered := ScanRow(m, parts, done, partPolys, labels, seeds, covered);
    FromRow(m, labels, partPolys, covered, Marks(m, done));
    for y := 0 to m.height
      invariant AllInPlace(m, seeds, partPolys)
      invariant ColumnScan(m, labels, partPolys, covered, y, y) && |partPolys| == partcount
                && labels == Labels(m, parts)
    {
      partPolys, covered := ScanSide(m, parts, done, y, partPolys, labels, seeds, covered);
    }
    Finish(m, labels, partPolys, covered);
  }
}
