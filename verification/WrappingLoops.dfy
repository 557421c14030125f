/** The second half of poly_findedges: loops that only go right, up and left, and so wrap around
    the map.  They are found from row 0 and from column 0. */
module WrappingLoops {
  import opened Basics
  import opened BlockMap
  import opened TracePoly
  import opened WallParts
  import opened BoundaryLoops
  import opened PolyPlaces
  import opened FindEdges

  // ---------------------------------------------------------------- the scan of row 0

  /** The upward edge whose right neighbour is block c. */
  function UpEdge(m: Map, c: Cell): Edge
    requires m.Valid() && m.Has(c)
  {
    Edge(m.Go(c, 6), 2)
  }

  lemma MarksUpIs(m: Map, s: Edge, c: Cell)
    requires m.Valid() && m.Has(c)
    ensures MarksUp(m, s, c) <==> m.Has(s.c) && s == UpEdge(m, c)
  {
    hide Map.Go;
    GoBack(m, c, 6);
    if m.Has(s.c) {
      GoBack(m, s.c, 2);
    }
  }

  /** The `done` value v of block c: -1 only if its upward edge is covered, and -1 if that edge is
      covered as part of a loop within {0, 2, 4}. */
  ghost predicate UpOk(m: Map, v: int, covered: set<Edge>, c: Cell)
    requires m.Valid() && m.Has(c)
  {
    && (v == -1 ==> UpEdge(m, c) in covered)
    && (UpEdge(m, c) in covered && Only(m, UPWARD, UpEdge(m, c)) ==> v == -1)
  }

  ghost predicate UpsOk(m: Map, marks: map<Cell, int>, covered: set<Edge>)
    requires m.Valid()
  {
    forall c :: (c in marks <==> m.Has(c)) && (c in marks ==> UpOk(m, marks[c], covered, c))
  }

  /** All loops that leave {0, 2, 4} are covered. */
  ghost predicate LeaversCovered(m: Map, covered: set<Edge>)
    requires m.Valid()
  {
    forall s :: m.Boundary(s) && !Only(m, UPWARD, s) ==> s in covered
  }

  /** Besides, no loop within {0, 4} is covered, and the upward edges crossing the first n blocks of
      row 0 are covered. */
  ghost predicate RowOk(m: Map, covered: set<Edge>, n: nat)
    requires m.Valid() && n <= m.width
  {
    && LeaversCovered(m, covered)
    && (forall s :: s in covered ==> !Only(m, {0, 4}, s))
    && (forall x :: 0 <= x < n && m.Boundary(UpEdge(m, Cell(x, 0))) ==> UpEdge(m, Cell(x, 0)) in covered)
  }

  lemma OnlyFewer(m: Map, ds: set<Dir>, ds': set<Dir>, s: Edge)
    requires m.Valid() && Only(m, ds, s) && ds <= ds'
    ensures Only(m, ds', s)
  {
    hide Loops;
    var t :| OnlyIn(m, ds, s, t);
    assert OnlyIn(m, ds', s, t);
  }

  lemma RowStart(m: Map, marks: map<Cell, int>, covered: set<Edge>)
    requires m.Valid() && MarksOk(m, marks, covered)
    requires forall s :: m.Boundary(s) ==> (s in covered <==> !Only(m, UPWARD, s))
    ensures UpsOk(m, marks, covered) && RowOk(m, covered, 0)
  {
    hide Only, Map.NoEdge;
    forall s | s in covered
      ensures !Only(m, {0, 4}, s)
    {
      if Only(m, {0, 4}, s) {
        OnlyFewer(m, {0, 4}, UPWARD, s);
      }
    }
  }

  /** When block c has an upward edge on its left, and which wall that edge bounds. */
  lemma UpBoundary(m: Map, c: Cell)
    requires m.Valid() && m.Has(c)
    ensures var b, l := m.At(c), m.At(m.Go(c, 4));
            m.Boundary(UpEdge(m, c)) <==>
              !(Filled(b) || b == REC_DL || b == REC_UL) && (Filled(l) || l == REC_UR || l == REC_DR)
    ensures m.LeftCell(UpEdge(m, c)) == m.Go(c, 4)
  {
    hide Mod;
    GoGo(m, c, 6, 3);
    AroundCell(m, c);
  }

  /** A union of loops contains an edge exactly if it contains the next one. */
  lemma LoopsHas(m: Map, t: set<Edge>, s: Edge)
    requires m.Valid() && Loops(m, t) && m.Boundary(s)
    ensures s in t <==> Next(m, s) in t
  {
  }

  /** An edge next to one in a bad direction is on a loop with a bad direction. */
  lemma NotOnly(m: Map, ds: set<Dir>, s: Edge)
    requires m.Valid() && m.Boundary(s) && (s.d !in ds || Next(m, s).d !in ds)
    ensures !Only(m, ds, s) && !Only(m, ds, Next(m, s))
  {
    hide Loops, Next, Map.NoEdge;
    if t :| OnlyIn(m, ds, s, t) {
      LoopsHas(m, t, s);
    }
    if t :| OnlyIn(m, ds, Next(m, s), t) {
      LoopsHas(m, t, s);
    }
  }

  /** Next to a diagonal block an upward edge is on a loop that leaves {0, 2, 4}. */
  lemma UpDiagonal(m: Map, c: Cell)
    requires m.Valid() && m.Has(c) && m.Boundary(UpEdge(m, c)) && !Filled(m.At(m.Go(c, 4)))
    ensures !Only(m, UPWARD, UpEdge(m, c))
  {
    var s, l := UpEdge(m, c), m.Go(c, 4);
    UpBoundary(m, c);
    if m.At(l) == REC_DR {
      UpBesideDR(m, c);
      NotOnly(m, UPWARD, s);
    } else {
      UpBesideUR(m, c);
      NotOnly(m, UPWARD, Edge(l, 7));
    }
  }

  lemma UpBesideDR(m: Map, c: Cell)
    requires m.Valid() && m.Has(c) && m.At(m.Go(c, 4)) == REC_DR
    ensures Next(m, UpEdge(m, c)).d == 5
  {
    AroundCell(m, c);
    hide Map.Go;
    FirstRay(m, UpEdge(m, c));
  }

  lemma UpBesideUR(m: Map, c: Cell)
    requires m.Valid() && m.Has(c) && m.At(m.Go(c, 4)) == REC_UR && m.Boundary(UpEdge(m, c))
    ensures m.Boundary(Edge(m.Go(c, 4), 7)) && Next(m, Edge(m.Go(c, 4), 7)) == UpEdge(m, c)
  {
    var l := m.Go(c, 4);
    GoGo(m, c, 4, 7);
    assert m.Go(l, 7) == m.Go(c, 6);
    hide Map.Go;
    KeyIsBoundary(m, l);
    FirstRay(m, Edge(l, 7));
  }

  lemma UpEdgeUnique(m: Map, c: Cell, e: Cell)
    requires m.Valid() && m.Has(c) && m.Has(e)
    ensures UpEdge(m, c) == UpEdge(m, e) ==> c == e
  {
    hide Map.Go;
    GoBack(m, c, 6);
    GoBack(m, e, 6);
  }

  lemma UpMark(m: Map, es: seq<Edge>, c: Cell)
    requires m.Valid() && m.Has(c)
    ensures Marked(m, es, true, c) <==> UpEdge(m, c) in es
  {
    assert m.Has(UpEdge(m, c).c);
    hide UpEdge, MarksUp;
    MarksUpIs(m, UpEdge(m, c), c);
    if Marked(m, es, true, c) {
      var s :| s in es && MarksUp(m, s, c);
      MarksUpIs(m, s, c);
    }
  }

  /** The new `done` value of block e after marking along a chain from the upward edge of c. */
  lemma MarkedUp(m: Map, marks: map<Cell, int>, c: Cell, path: seq<Edge>, e: Cell)
    requires m.Valid() && m.Has(c) && m.Has(e) && e in marks && 0 < |path| && path[0] == UpEdge(m, c)
    ensures After(m, marks[c := -1], path[1..], true)[e] == if UpEdge(m, e) in SetOf(path) then -1 else marks[e]
  {
    assert path == [path[0]] + path[1..];
    hide UpEdge, Marked;
    UpMark(m, path[1..], e);
    UpEdgeUnique(m, c, e);
  }

  /** A cycle within {0, 2, 4} through an unmarked upward edge is new. */
  lemma RowFresh(m: Map, marks: map<Cell, int>, covered: set<Edge>, c: Cell, path: seq<Edge>)
    requires m.Valid() && m.Has(c) && UpsOk(m, marks, covered) && marks[c] != -1
    requires Cycle(m, path) && path[0] == UpEdge(m, c) && forall s :: s in path ==> s.d in UPWARD
    ensures path[0] !in covered
  {
    CycleIsLoop(m, path);
    assert OnlyIn(m, UPWARD, path[0], SetOf(path));
    hide Loops, Cycle, UpEdge, Only;
    assert UpOk(m, marks[c], covered, c);
  }

  /** Covering all edges of a chain from the upward edge of c, and marking along it, keeps the marks right. */
  lemma RowMarks(m: Map, marks: map<Cell, int>, covered: set<Edge>, c: Cell, path: seq<Edge>)
    requires m.Valid() && m.Has(c) && UpsOk(m, marks, covered) && 0 < |path| && path[0] == UpEdge(m, c)
    ensures UpsOk(m, After(m, marks[c := -1], path[1..], true), covered + SetOf(path))
  {
    var marks', covered' := After(m, marks[c := -1], path[1..], true), covered + SetOf(path);
    hide After, UpEdge, Only, SetOf;
    forall e | m.Has(e)
      ensures UpOk(m, marks'[e], covered', e)
    {
      MarkedUp(m, marks, c, path, e);
      assert UpOk(m, marks[e], covered, e);
    }
  }

  /** A trace given up at a bad direction only walked covered edges. */
  lemma RowFailed(m: Map, covered: set<Edge>, path: seq<Edge>)
    requires m.Valid() && Loops(m, covered) && LeaversCovered(m, covered)
    requires Chain(m, path) && Next(m, path[|path| - 1]).d !in UPWARD
    ensures SetOf(path) <= covered
  {
    StartLeaves(m, covered, path);
    hide Chain, Loops, Next, LeaversCovered;
    assert path[0] in path;
    ChainInside(m, path, covered, path[0]);
  }

  lemma StartLeaves(m: Map, covered: set<Edge>, path: seq<Edge>)
    requires m.Valid() && LeaversCovered(m, covered)
    requires Chain(m, path) && Next(m, path[|path| - 1]).d !in UPWARD
    ensures path[0] in covered
  {
    assert m.Boundary(path[0]);
    hide Chain, Map.Boundary, Only;
    if Only(m, UPWARD, path[0]) {
      OnlyInside(m, UPWARD, path);
    }
  }

  lemma OnlyInside(m: Map, ds: set<Dir>, path: seq<Edge>)
    requires m.Valid() && Chain(m, path) && Only(m, ds, path[0])
    ensures Next(m, path[|path| - 1]).d in ds
  {
    assert path[0] in path;
    hide Chain, Loops, Next;
    var t :| OnlyIn(m, ds, path[0], t);
    ChainInside(m, path, t, path[0]);
  }

  lemma RowMore(m: Map, covered: set<Edge>, path: seq<Edge>, n: nat)
    requires m.Valid() && n <= m.width && RowOk(m, covered, n) && Chain(m, path) && path[0].d == 2
    ensures RowOk(m, covered + SetOf(path), n)
  {
    StartOutside(m, {0, 4}, path);
    hide Chain, Only, Map.Boundary, UpEdge;
  }

  lemma RowNext(m: Map, covered: set<Edge>, n: nat)
    requires m.Valid() && n < m.width && RowOk(m, covered, n)
    requires m.Boundary(UpEdge(m, Cell(n, 0))) ==> UpEdge(m, Cell(n, 0)) in covered
    ensures RowOk(m, covered, n + 1)
  {
    hide Only, Map.Boundary, UpEdge;
  }

  /** A block of row 0 where no trace is started has no uncovered upward edge. */
  lemma RowSkip(m: Map, marks: map<Cell, int>, covered: set<Edge>, n: nat)
    requires m.Valid() && n < m.width && UpsOk(m, marks, covered) && RowOk(m, covered, n)
    requires var c := Cell(n, 0);
             || (Filled(m.At(c)) || m.At(c) == REC_DL || m.At(c) == REC_UL)
             || !Filled(m.At(m.Go(c, 4))) || marks[c] == -1
    ensures RowOk(m, covered, n + 1)
  {
    var c := Cell(n, 0);
    assert m.Boundary(UpEdge(m, c)) ==> UpEdge(m, c) in covered by {
      UpBoundary(m, c);
      assert UpOk(m, marks[c], covered, c);
      if m.Boundary(UpEdge(m, c)) && !Filled(m.At(m.Go(c, 4))) {
        UpDiagonal(m, c);
      }
    }
    RowNext(m, covered, n);
  }

  /** The trace from an upward edge of row 0: where it starts, and in which part. */
  lemma UpCorner(m: Map, labels: map<Cell, Label>, seeds: seq<Cell>, c: Cell)
    requires m.Valid() && IsPartition(m, labels, seeds) && m.Has(c) && StartsUp(m, c)
    ensures var l := m.Go(c, 4);
            && l in labels && labels[l].part < |seeds|
            && Edge(m.Wrap(labels[l].ux + 1, labels[l].uy + 1), 2) == UpEdge(m, c)
            && m.Boundary(UpEdge(m, c)) && PartOf(m, labels, UpEdge(m, c)) == labels[l].part
  {
    hide IsPartition, Map.Wrap, Map.Go, Map.Boundary, Map.LeftCell, Filled;
    var l := m.Go(c, 4);
    UpBoundary(m, c);
    LeftDown(m, c);
    LabelCorner(m, labels, seeds, l);
    assert m.Wrap(labels[l].ux + Dirs(7).dx, labels[l].uy + Dirs(7).dy) == m.Go(l, 7);
  }

  lemma LeftDown(m: Map, c: Cell)
    requires m.Valid() && m.Has(c)
    ensures m.Go(m.Go(c, 4), 7) == m.Go(c, 6)
  {
    hide Mod;
    GoGo(m, c, 4, 7);
  }

  lemma InRow0(m: Map, n: nat)
    requires m.Valid() && n < m.width
    ensures m.Has(Cell(n, 0)) && UpEdge(m, Cell(n, 0)).d == 2
  {
  }

  lemma CycleIsChain(m: Map, path: seq<Edge>)
    requires m.Valid() && Cycle(m, path)
    ensures Chain(m, path)
  {
  }

  lemma ChainStarts(m: Map, path: seq<Edge>)
    requires m.Valid() && Chain(m, path)
    ensures 0 < |path| && path[0] in SetOf(path) && m.Boundary(path[0])
  {
  }

  lemma RowSuccess(m: Map, covered: set<Edge>, marks: map<Cell, int>, n: nat, path: seq<Edge>)
    requires m.Valid() && n < m.width && UpsOk(m, marks, covered) && RowOk(m, covered, n)
    requires marks[Cell(n, 0)] != -1
    requires Cycle(m, path) && path[0] == UpEdge(m, Cell(n, 0)) && forall s :: s in path ==> s.d in UPWARD
    ensures path[0] !in covered && RowOk(m, covered + SetOf(path), n + 1)
    ensures UpsOk(m, After(m, marks[Cell(n, 0) := -1], path[1..], true), covered + SetOf(path))
  {
    hide *;
    CycleIsChain(m, path);
    ChainStarts(m, path);
    InRow0(m, n);
    RowFresh(m, marks, covered, Cell(n, 0), path);
    RowMarks(m, marks, covered, Cell(n, 0), path);
    RowMore(m, covered, path, n);
    RowNext(m, covered + SetOf(path), n);
  }

  lemma RowMarksWithin(m: Map, marks: map<Cell, int>, covered: set<Edge>, c: Cell, path: seq<Edge>)
    requires m.Valid() && m.Has(c) && UpsOk(m, marks, covered) && 0 < |path| && path[0] == UpEdge(m, c)
    requires SetOf(path) <= covered
    ensures UpsOk(m, After(m, marks[c := -1], path[1..], true), covered)
  {
    RowMarks(m, marks, covered, c, path);
    assert covered + SetOf(path) == covered;
  }

  lemma RowFailure(m: Map, covered: set<Edge>, marks: map<Cell, int>, n: nat, path: seq<Edge>)
    requires m.Valid() && n < m.width && UpsOk(m, marks, covered) && Loops(m, covered)
    requires RowOk(m, covered, n) && LeaversCovered(m, covered)
    requires Chain(m, path) && path[0] == UpEdge(m, Cell(n, 0)) && Next(m, path[|path| - 1]).d !in UPWARD
    ensures UpsOk(m, After(m, marks[Cell(n, 0) := -1], path[1..], true), covered) && RowOk(m, covered, n + 1)
  {
    hide *;
    ChainStarts(m, path);
    InRow0(m, n);
    RowFailed(m, covered, path);
    RowMarksWithin(m, marks, covered, Cell(n, 0), path);
    assert UpEdge(m, Cell(n, 0)) in covered;
    RowNext(m, covered, n);
  }

  /** The assignment done[c] = v. */
  method SetMark(m: Map, done: array2<int>, c: Cell, v: int)
    requires m.Valid() && done.Length0 == m.height && done.Length1 == m.width && m.Has(c)
    modifies done
    ensures Marks(m, done) == old(Marks(m, done))[c := v]
  {
    done[c.y, c.x] := v;
  }

  /** The state of the scan of row 0 before block n. */
  ghost predicate RowScan(m: Map, labels: map<Cell, Label>, partPolys: seq<seq<Polygon>>, covered: set<Edge>,
                          marks: map<Cell, int>, n: nat)
    requires m.Valid() && n <= m.width
  {
    UpsOk(m, marks, covered) && RowOk(m, covered, n) && Emitted(m, labels, partPolys, covered)
  }

  /** What a restricted trace from the upward edge of block n of row 0 does to the state. */
  lemma RowTraced(m: Map, labels: map<Cell, Label>, seeds: seq<Cell>, partPolys: seq<seq<Polygon>>, covered: set<Edge>,
                  marks: map<Cell, int>, n: nat, poly: Option<Polygon>, path: seq<Edge>, p: nat)
    requires m.Valid() && IsPartition(m, labels, seeds) && n < m.width
    requires RowScan(m, labels, partPolys, covered, marks, n) && marks[Cell(n, 0)] != -1
    requires Chain(m, path) && path[0] == UpEdge(m, Cell(n, 0)) && forall s :: s in path ==> s.d in UPWARD
    requires poly.Some? ==> Traced(m, poly.value) && EdgesOf(m, poly.value) == path
    requires poly.None? ==> Next(m, path[|path| - 1]).d !in UPWARD
    requires p < |partPolys| && m.Has(path[0].c) && PartOf(m, labels, path[0]) == p
    ensures var marks' := After(m, marks[Cell(n, 0) := -1], path[1..], true);
            if poly.Some?
            then RowScan(m, labels, partPolys[p := partPolys[p] + [poly.value]], covered + SetOf(path), marks', n + 1)
            else RowScan(m, labels, partPolys, covered, marks', n + 1)
  {
    if poly.Some? {
      assert Cycle(m, path);
      RowSuccess(m, covered, marks, n, path);
      hide UpsOk, RowOk, Emitted, IsPartition, Traced, Chain, PartOf, EdgesOf, SetOf, After, UpEdge;
      Emit(m, labels, seeds, partPolys, covered, poly.value, path, p);
    } else {
      assert LeaversCovered(m, covered) && Loops(m, covered);
      hide UpsOk, RowOk, Emitted, IsPartition, Chain, PartOf, EdgesOf, SetOf, After, UpEdge, LeaversCovered, Loops;
      RowFailure(m, covered, marks, n, path);
    }
  }

  lemma UpBeside(x: int, y: int)
    ensures LeftPos(Point(x + 1, y + 1, Dirs(2))) == Pos(x, y)
  {
  }

  /** Tracing upward past block n of row 0. */
  method TraceUp(m: Map, done: array2<int>, n: nat, sl: Label, partPolys0: seq<seq<Polygon>>,
                 ghost labels: map<Cell, Label>, ghost seeds: seq<Cell>, ghost covered0: set<Edge>)
    returns (partPolys: seq<seq<Polygon>>, ghost covered: set<Edge>)
    requires m.Valid() && n < m.width && done.Length0 == m.height && done.Length1 == m.width
    requires IsPartition(m, labels, seeds) && sl.part < |partPolys0|
    requires var s := UpEdge(m, Cell(n, 0));
             m.Boundary(s) && Edge(m.Wrap(sl.ux + 1, sl.uy + 1), 2) == s && PartOf(m, labels, s) == sl.part
    requires RowScan(m, labels, partPolys0, covered0, Marks(m, done), n) && Marks(m, done)[Cell(n, 0)] != -1
    requires m.Go(Cell(n, 0), 4) in labels && labels[m.Go(Cell(n, 0), 4)] == sl && AllInPlace(m, seeds, partPolys0)
    modifies done
    ensures RowScan(m, labels, partPolys, covered, Marks(m, done), n + 1) && |partPolys| == |partPolys0|
    ensures AllInPlace(m, seeds, partPolys)
  {
    hide RowScan, IsPartition, Map.NoEdge, Map.Wrap, Map.Go, UpEdge, Chain, Traced, Marks, After, PartOf, EdgesOf,
         SetOf, Next, AllInPlace, LeftPos, Dirs, Map.LeftCell, Turn, ClosedAt;
    partPolys, covered := partPolys0, covered0;
    ghost var marks := Marks(m, done);
    SetMark(m, done, Cell(n, 0), -1);
    var poly, path := Trace(m, done, sl.ux + 1, sl.uy + 1, 2, Some(UPWARD));
    RowTraced(m, labels, seeds, partPolys, covered, marks, n, poly, path, sl.part);
    if poly.Some? {
      UpBeside(sl.ux, sl.uy);
      PlaceTraced(m, labels, seeds, m.Go(Cell(n, 0), 4), partPolys, poly.value);
      partPolys := partPolys[sl.part := partPolys[sl.part] + [poly.value]];
      covered := covered + SetOf(path);
    }
  }

  lemma MarkAt(m: Map, done: array2<int>, c: Cell)
    requires m.Valid() && done.Length0 == m.height && done.Length1 == m.width && m.Has(c)
    ensures c in Marks(m, done) && Marks(m, done)[c] == done[c.y, c.x]
  {
  }

  lemma LabelAt(m: Map, parts: array2<Option<Label>>, labels: map<Cell, Label>, c: Cell)
    requires m.Valid() && parts.Length0 == m.height && parts.Length1 == m.width
    requires labels == Labels(m, parts) && c in labels
    ensures m.Has(c) && parts[c.y, c.x] == Some(labels[c])
  {
  }

  /** Where no trace is started, nothing is missed. */
  lemma RowSkips(m: Map, labels: map<Cell, Label>, partPolys: seq<seq<Polygon>>, covered: set<Edge>,
                 marks: map<Cell, int>, n: nat)
    requires m.Valid() && n < m.width && RowScan(m, labels, partPolys, covered, marks, n)
    requires Cell(n, 0) in marks
    requires !StartsUp(m, Cell(n, 0)) || marks[Cell(n, 0)] == -1
    ensures RowScan(m, labels, partPolys, covered, marks, n + 1)
  {
    hide Emitted;
    RowSkip(m, marks, covered, n);
  }

  /** The test of the row 0 scan on the blocks. */
  predicate StartsUp(m: Map, c: Cell)
    requires m.Valid() && m.Has(c)
  {
    var b := m.At(c);
    !(Filled(b) || b == REC_DL || b == REC_UL) && Filled(m.At(m.Go(c, 4)))
  }

  /** The scan of row 0. */
  method ScanRow(m: Map, parts: array2<Option<Label>>, done: array2<int>, partPolys0: seq<seq<Polygon>>,
                 ghost labels: map<Cell, Label>, ghost seeds: seq<Cell>, ghost covered0: set<Edge>)
    returns (partPolys: seq<seq<Polygon>>, ghost covered: set<Edge>)
    requires m.Valid() && parts.Length0 == done.Length0 == m.height && parts.Length1 == done.Length1 == m.width
    requires labels == Labels(m, parts) && IsPartition(m, labels, seeds) && |partPolys0| == |seeds|
    requires RowScan(m, labels, partPolys0, covered0, Marks(m, done), 0)
    requires AllInPlace(m, seeds, partPolys0)
    modifies done
    ensures RowScan(m, labels, partPolys, covered, Marks(m, done), m.width) && |partPolys| == |partPolys0|
    ensures AllInPlace(m, seeds, partPolys)
  {
    partPolys, covered := partPolys0, covered0;
    hide RowScan, IsPartition, Map.Go, Labels, Marks, StartsUp, UpEdge, PartOf, Map.Boundary, Map.Wrap, AllInPlace;
    for x := 0 to m.width
      invariant AllInPlace(m, seeds, partPolys)
      invariant RowScan(m, labels, partPolys, covered, Marks(m, done), x) && |partPolys| == |partPolys0|
    {
      var c := Cell(x, 0);
      MarkAt(m, done, c);
      if StartsUp(m, c) && done[c.y, c.x] != -1 {
        var l := m.Go(c, 4);
        UpCorner(m, labels, seeds, c);
        LabelAt(m, parts, labels, l);
        partPolys, covered := TraceUp(m, done, x, parts[l.y, l.x].value, partPolys, labels, seeds, covered);
      } else {
        RowSkips(m, labels, partPolys, covered, Marks(m, done), x);
      }
    }
  }
}
