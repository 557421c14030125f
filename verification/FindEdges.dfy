/** Collecting every boundary loop of the wall: poly_findedges of mapconvert.py.  The main scan
    catches every loop that has an edge going in a direction outside {0, 2, 4}; the scan of row 0
    catches the remaining loops that go up somewhere; the scan of column 0 the horizontal ones. */
module FindEdges {
  import opened Basics
  import opened BlockMap
  import opened TracePoly
  import opened WallParts
  import opened BoundaryLoops
  import opened PolyPlaces

  const UPWARD: set<Dir> := {0, 2, 4}

  // ---------------------------------------------------------------- the main scan: marks

  ghost predicate MarkedBy(m: Map, edges: set<Edge>, c: Cell)
    requires m.Valid()
  {
    exists s :: s in edges && MarksDone(m, s, c)
  }

  /** `done` is 1 exactly at the blocks marked by covered edges, and every covered loop leaves the
      directions {0, 2, 4}. */
  ghost predicate MarksOk(m: Map, marks: map<Cell, int>, covered: set<Edge>)
    requires m.Valid()
  {
    && (forall c :: c in marks <==> m.Has(c))
    && (forall c :: c in marks ==> marks[c] == if MarkedBy(m, covered, c) then 1 else 0)
    && (forall s :: s in covered ==> !Only(m, UPWARD, s))
  }

  lemma MarksStart(m: Map, marks: map<Cell, int>)
    requires m.Valid() && (forall c :: c in marks <==> m.Has(c)) && forall c :: c in marks ==> marks[c] == 0
    ensures MarksOk(m, marks, {})
  {
  }

  /** A chain that starts in a direction outside ds lies on loops that leave ds. */
  lemma StartOutside(m: Map, ds: set<Dir>, path: seq<Edge>)
    requires m.Valid() && Chain(m, path) && path[0].d !in ds
    ensures forall s :: s in path ==> !Only(m, ds, s)
  {
    assert path[0] in SetOf(path);
    hide Chain, Loops;
    forall s | s in path
      ensures !Only(m, ds, s)
    {
      if Only(m, ds, s) {
        var t :| OnlyIn(m, ds, s, t);
        ChainInside(m, path, t, s);
      }
    }
  }

  lemma MarksExtend(m: Map, marks: map<Cell, int>, covered: set<Edge>, path: seq<Edge>)
    requires m.Valid() && MarksOk(m, marks, covered) && Chain(m, path) && path[0].d !in UPWARD
    ensures MarksOk(m, After(m, marks, path, false), covered + SetOf(path))
  {
    StartOutside(m, UPWARD, path);
    hide Chain, Only, MarksDone;
    var after := After(m, marks, path, false);
    forall c | c in after
      ensures after[c] == if MarkedBy(m, covered + SetOf(path), c) then 1 else 0
    {
      if MarkedBy(m, covered, c) {
        var s :| s in covered && MarksDone(m, s, c);
        assert s in covered + SetOf(path);
      }
      if Marked(m, path, false, c) {
        var s :| s in path && MarksDone(m, s, c);
        assert s in covered + SetOf(path);
      }
      if MarkedBy(m, covered + SetOf(path), c) {
        var s :| s in covered + SetOf(path) && MarksDone(m, s, c);
        assert s in path ==> Marked(m, path, false, c);
      }
    }
  }

  /** A block that is not marked yet has an uncovered key edge. */
  lemma KeyFresh(m: Map, marks: map<Cell, int>, covered: set<Edge>, c: Cell)
    requires m.Valid() && MarksOk(m, marks, covered) && m.Has(c) && KeyOf(m, c).Some? && marks[c] == 0
    ensures KeyOf(m, c).value !in covered
  {
    hide MarksDone, KeyOf, Only;
    KeyIsBoundary(m, c);
  }

  /** The key edge of a marked block is covered. */
  lemma KeyCovered(m: Map, marks: map<Cell, int>, covered: set<Edge>, c: Cell)
    requires m.Valid() && MarksOk(m, marks, covered) && Loops(m, covered)
    requires m.Has(c) && KeyOf(m, c).Some? && marks[c] != 0
    ensures KeyOf(m, c).value in covered
  {
    hide MarksDone, KeyOf, Only, Next, Map.NoEdge;
    var s :| s in covered && MarksDone(m, s, c);
    KeyIsBoundary(m, c);
    MarkNearKey(m, s, c);
  }

  /** The key edges of all blocks before (x, y) are covered. */
  ghost predicate KeysDone(m: Map, covered: set<Edge>, x: nat, y: nat)
    requires m.Valid()
  {
    forall c :: m.Has(c) && (c.y < y || (c.y == y && c.x < x)) && KeyOf(m, c).Some? ==> KeyOf(m, c).value in covered
  }

  lemma KeysNext(m: Map, covered: set<Edge>, more: set<Edge>, x: nat, y: nat)
    requires m.Valid() && KeysDone(m, covered, x, y) && covered <= more && x < m.width && y < m.height
    requires KeyOf(m, Cell(x, y)).Some? ==> KeyOf(m, Cell(x, y)).value in more
    ensures KeysDone(m, more, x + 1, y)
    ensures x + 1 == m.width ==> KeysDone(m, more, 0, y + 1)
  {
    hide KeyOf;
  }

  lemma KeyedUncovered(m: Map, covered: set<Edge>, s: Edge)
    requires m.Valid() && Loops(m, covered) && KeysDone(m, covered, 0, m.height)
    requires m.Boundary(s) && s !in covered
    ensures s.d in UPWARD
  {
    hide KeyOf, Next, Map.NoEdge, Map.WedgeCell;
    if s.d !in UPWARD {
      var c := m.LeftCell(s);
      MarkNearKey(m, s, c);
      KeyIsBoundary(m, c);
    }
  }

  /** After the main scan the covered edges are exactly those of loops that leave {0, 2, 4}. */
  lemma KeysCoverAll(m: Map, marks: map<Cell, int>, covered: set<Edge>)
    requires m.Valid() && MarksOk(m, marks, covered) && Loops(m, covered) && KeysDone(m, covered, 0, m.height)
    ensures forall s :: m.Boundary(s) ==> (s in covered <==> !Only(m, UPWARD, s))
  {
    var rest := m.BoundaryEdges() - covered;
    LoopsRest(m, covered);
    hide KeysDone, Loops, Map.Boundary;
    forall s | m.Boundary(s) && s !in covered
      ensures Only(m, UPWARD, s)
    {
      forall r | r in rest
        ensures r.d in UPWARD
      {
        KeyedUncovered(m, covered, r);
      }
      assert OnlyIn(m, UPWARD, s, rest);
    }
  }

  // ---------------------------------------------------------------- starting a trace at a block

  /** The stored label of a wall cell, and the unwrapped corner one step off it. */
  lemma LabelCorner(m: Map, labels: map<Cell, Label>, seeds: seq<Cell>, c: Cell)
    requires m.Valid() && IsPartition(m, labels, seeds) && m.Has(c) && Wall(m.At(c))
    ensures c in labels && labels[c].part < |seeds| && m.Wrap(labels[c].ux, labels[c].uy) == c
    ensures forall d: Dir :: m.Wrap(labels[c].ux + Dirs(d).dx, labels[c].uy + Dirs(d).dy) == m.Go(c, d)
  {
    hide Map.Go, Map.Wrap, Dirs, Wall, ClosedAt, SeedsOk;
    assert Truthful(m, seeds, c, labels[c]);
    forall d: Dir
      ensures m.Wrap(labels[c].ux + Dirs(d).dx, labels[c].uy + Dirs(d).dy) == m.Go(c, d)
    {
      WrapStep(m, labels[c].ux, labels[c].uy, d);
    }
  }

  /** The state of poly_findedges between two traces of the main scan. */
  ghost predicate Scanning(m: Map, labels: map<Cell, Label>, partPolys: seq<seq<Polygon>>, covered: set<Edge>,
                           marks: map<Cell, int>)
    requires m.Valid()
  {
    MarksOk(m, marks, covered) && Emitted(m, labels, partPolys, covered)
  }

  /** Where and how the main scan starts tracing at block b whose left neighbour is l: the shift from
      the block to the corner, and the direction. */
  function StartAt(b: char, l: char): Option<(Vec, Dir)> {
    if b == REC_UR then Some((Vec(0, 0), 7))
    else if b == REC_DR then Some((Vec(1, 0), 5))
    else if b == REC_DL then Some((Vec(1, 1), 3))
    else if b == REC_UL then Some((Vec(0, 1), 1))
    else if (Filled(b) || b == REC_DL || b == REC_UL) && !(Filled(l) || l == REC_DR || l == REC_UR)
    then Some((Vec(0, 0), 6))
    else None
  }

  /** The start of the main scan is the key edge ... */
  lemma StartTable(m: Map, c: Cell)
    requires m.Valid() && m.Has(c)
    ensures var start := StartAt(m.At(c), m.At(m.Go(c, 4)));
            match KeyOf(m, c)
            case None => start.None?
            case Some(k) =>
              && start.Some? && start.value.1 == k.d && k.d !in UPWARD
              && (   (start.value.0 == Vec(0, 0) && k.c == c)
                  || (start.value.0 == Dirs(0) && k.c == m.Go(c, 0))
                  || (start.value.0 == Dirs(7) && k.c == m.Go(c, 7))
                  || (start.value.0 == Dirs(6) && k.c == m.Go(c, 6)))
  {
    hide Map.Go;
  }

  /** ... taken from the unwrapped position of the block. */
  lemma StartIsKey(m: Map, labels: map<Cell, Label>, seeds: seq<Cell>, c: Cell)
    requires m.Valid() && IsPartition(m, labels, seeds) && m.Has(c) && Wall(m.At(c))
    ensures c in labels && labels[c].part < |seeds|
    ensures StartAt(m.At(c), m.At(m.Go(c, 4))).Some? <==> KeyOf(m, c).Some?
    ensures KeyOf(m, c).Some? ==>
              var start, k := StartAt(m.At(c), m.At(m.Go(c, 4))).value, KeyOf(m, c).value;
              && Edge(m.Wrap(labels[c].ux + start.0.dx, labels[c].uy + start.0.dy), start.1) == k
              && m.Boundary(k) && PartOf(m, labels, k) == labels[c].part && k.d !in UPWARD
  {
    hide Map.Go, Map.Wrap, IsPartition, Map.Boundary, KeyOf, StartAt, Map.At, Wall, Dirs;
    LabelCorner(m, labels, seeds, c);
    StartTable(m, c);
    if KeyOf(m, c).Some? {
      KeyIsBoundary(m, c);
    }
  }

  lemma ScanExtend(m: Map, labels: map<Cell, Label>, seeds: seq<Cell>, partPolys: seq<seq<Polygon>>, covered: set<Edge>,
                   marks: map<Cell, int>, poly: Polygon, path: seq<Edge>, p: nat)
    requires m.Valid() && IsPartition(m, labels, seeds) && Scanning(m, labels, partPolys, covered, marks)
    requires Traced(m, poly) && EdgesOf(m, poly) == path && path[0] !in covered && path[0].d !in UPWARD
    requires p < |partPolys| && m.Has(path[0].c) && PartOf(m, labels, path[0]) == p
    ensures Scanning(m, labels, partPolys[p := partPolys[p] + [poly]], covered + SetOf(path),
                     After(m, marks, path, false))
    ensures path[0] in SetOf(path)
  {
    hide IsPartition, MarksOk, Emitted, PartOf, After;
    Emit(m, labels, seeds, partPolys, covered, poly, path, p);
    MarksExtend(m, marks, covered, path);
  }

  /** The start corner is beside the block itself. */
  lemma StartBeside(b: char, l: char, x: int, y: int)
    requires StartAt(b, l).Some?
    ensures var start := StartAt(b, l).value;
            LeftPos(Point(x + start.0.dx, y + start.0.dy, Dirs(start.1))) == Pos(x, y)
  {
  }

  /** The polygon traced from the stored position of block c is put beside the part of c. */
  lemma PlaceTraced(m: Map, labels: map<Cell, Label>, seeds: seq<Cell>, c: Cell, partPolys: seq<seq<Polygon>>,
                    poly: Polygon)
    requires m.Valid() && IsPartition(m, labels, seeds) && c in labels && labels[c].part < |partPolys|
    requires AllInPlace(m, seeds, partPolys) && Traced(m, poly)
    requires 0 < |poly| ==> LeftPos(poly[0]) == Pos(labels[c].ux, labels[c].uy)
    ensures var p := labels[c].part; AllInPlace(m, seeds, partPolys[p := partPolys[p] + [poly]])
  {
    hide IsPartition, LeftPos, AllInPlace, PolyInPlace, UnitChain;
    assert 0 < |poly|;
    TracedInPlace(m, labels, seeds, c, poly);
    PlaceMore(m, seeds, partPolys, labels[c].part, poly);
  }

  /** Tracing from the key edge of an unmarked block. */
  method TraceBlock(m: Map, parts: array2<Option<Label>>, done: array2<int>, c: Cell, partPolys0: seq<seq<Polygon>>,
                    ghost labels: map<Cell, Label>, ghost seeds: seq<Cell>, ghost covered0: set<Edge>)
    returns (partPolys: seq<seq<Polygon>>, ghost covered: set<Edge>)
    requires m.Valid() && m.Has(c) && parts.Length0 == done.Length0 == m.height
             && parts.Length1 == done.Length1 == m.width
    requires IsPartition(m, labels, seeds) && |partPolys0| == |seeds|
    requires c in labels && parts[c.y, c.x] == Some(labels[c]) && Wall(m.At(c))
    requires Scanning(m, labels, partPolys0, covered0, Marks(m, done))
    requires KeyOf(m, c).Some? && KeyOf(m, c).value !in covered0 && AllInPlace(m, seeds, partPolys0)
    modifies done
    ensures Scanning(m, labels, partPolys, covered, Marks(m, done)) && AllInPlace(m, seeds, partPolys)
    ensures |partPolys| == |partPolys0| && covered0 <= covered && KeyOf(m, c).value in covered
  {
    hide Scanning, IsPartition, Map.Boundary, Map.Wrap, Map.Go, KeyOf, StartAt, Wall, Chain, Traced, Marks, After,
         PartOf, EdgesOf, SetOf, AllInPlace, LeftPos;
    StartIsKey(m, labels, seeds, c);
    var start := StartAt(m.At(c), m.At(m.Go(c, 4))).value;
    var sl := parts[c.y, c.x].value;
    ghost var marks := Marks(m, done);
    var poly, path := Trace(m, done, sl.ux + start.0.dx, sl.uy + start.0.dy, start.1, None);
    ScanExtend(m, labels, seeds, partPolys0, covered0, marks, poly.value, path, sl.part);
    StartBeside(m.At(c), m.At(m.Go(c, 4)), sl.ux, sl.uy);
    PlaceTraced(m, labels, seeds, c, partPolys0, poly.value);
    partPolys := partPolys0[sl.part := partPolys0[sl.part] + [poly.value]];
    covered := covered0 + SetOf(path);
  }

  lemma ScanSkips(m: Map, labels: map<Cell, Label>, seeds: seq<Cell>, partPolys: seq<seq<Polygon>>, covered: set<Edge>,
                  marks: map<Cell, int>, c: Cell)
    requires m.Valid() && m.Has(c) && Scanning(m, labels, partPolys, covered, marks)
    ensures c in marks
    ensures marks[c] != 0 && KeyOf(m, c).Some? ==> KeyOf(m, c).value in covered
    ensures marks[c] == 0 && KeyOf(m, c).Some? ==> KeyOf(m, c).value !in covered
    ensures !Wall(m.At(c)) ==> KeyOf(m, c).None?
  {
    if KeyOf(m, c).Some? {
      if marks[c] != 0 {
        KeyCovered(m, marks, covered, c);
      } else {
        KeyFresh(m, marks, covered, c);
      }
    }
  }

  /** One block of the main scan. */
  method ScanBlock(m: Map, parts: array2<Option<Label>>, done: array2<int>, c: Cell, partPolys0: seq<seq<Polygon>>,
                   ghost labels: map<Cell, Label>, ghost seeds: seq<Cell>, ghost covered0: set<Edge>)
    returns (partPolys: seq<seq<Polygon>>, ghost covered: set<Edge>)
    requires m.Valid() && m.Has(c) && parts.Length0 == done.Length0 == m.height
             && parts.Length1 == done.Length1 == m.width
    requires labels == Labels(m, parts) && IsPartition(m, labels, seeds) && |partPolys0| == |seeds|
    requires Scanning(m, labels, partPolys0, covered0, Marks(m, done)) && AllInPlace(m, seeds, partPolys0)
    modifies done
    ensures Scanning(m, labels, partPolys, covered, Marks(m, done)) && AllInPlace(m, seeds, partPolys)
    ensures |partPolys| == |partPolys0| && covered0 <= covered
    ensures KeyOf(m, c).Some? ==> KeyOf(m, c).value in covered
  {
    partPolys, covered := partPolys0, covered0;
    assert Marks(m, done)[c] == done[c.y, c.x];
    assert c in labels ==> parts[c.y, c.x] == Some(labels[c]);
    hide Scanning, IsPartition, Map.Go, KeyOf, StartAt, Wall, Labels, Marks, AllInPlace;
    ScanSkips(m, labels, seeds, partPolys, covered, Marks(m, done), c);
    if done[c.y, c.x] != 0 || !Wall(m.At(c)) {
      return;
    }
    StartIsKey(m, labels, seeds, c);
    if StartAt(m.At(c), m.At(m.Go(c, 4))).Some? {
      partPolys, covered := TraceBlock(m, parts, done, c, partPolys, labels, seeds, covered);
    }
  }

  /** The main scan. */
  method ScanBlocks(m: Map, parts: array2<Option<Label>>, done: array2<int>, partcount: nat,
                    ghost labels: map<Cell, Label>, ghost seeds: seq<Cell>)
    returns (partPolys: seq<seq<Polygon>>, ghost covered: set<Edge>)
    requires m.Valid() && parts.Length0 == done.Length0 == m.height && parts.Length1 == done.Length1 == m.width
    requires labels == Labels(m, parts) && IsPartition(m, labels, seeds) && partcount == |seeds|
    requires forall c :: m.Has(c) ==> done[c.y, c.x] == 0
    modifies done
    ensures |partPolys| == partcount && Scanning(m, labels, partPolys, covered, Marks(m, done))
    ensures AllInPlace(m, seeds, partPolys)
    ensures forall s :: m.Boundary(s) ==> (s in covered <==> !Only(m, UPWARD, s))
  {
    partPolys := seq(partcount, i => []);
    covered := {};
    EmittedStart(m, labels, partPolys);
    MarksStart(m, Marks(m, done));
    assert Scanning(m, labels, partPolys, covered, Marks(m, done)) && AllInPlace(m, seeds, partPolys);
    hide Scanning, IsPartition, Labels, Marks, KeyOf, Map.Boundary, AllInPlace;
    for y := 0 to m.height
      invariant |partPolys| == partcount && Scanning(m, labels, partPolys, covered, Marks(m, done))
      invariant AllInPlace(m, seeds, partPolys)
      invariant KeysDone(m, covered, 0, y)
    {
      for x := 0 to m.width
        invariant |partPolys| == partcount && Scanning(m, labels, partPolys, covered, Marks(m, done))
        invariant AllInPlace(m, seeds, partPolys)
        invariant if x == m.width then KeysDone(m, covered, 0, y + 1) else KeysDone(m, covered, x, y)
      {
        ghost var before := covered;
        partPolys, covered := ScanBlock(m, parts, done, Cell(x, y), partPolys, labels, seeds, covered);
        KeysNext(m, before, covered, x, y);
      }
    }
    ScanCovers(m, labels, partPolys, covered, Marks(m, done));
  }

  lemma ScanCovers(m: Map, labels: map<Cell, Label>, partPolys: seq<seq<Polygon>>, covered: set<Edge>,
                   marks: map<Cell, int>)
    requires m.Valid() && Scanning(m, labels, partPolys, covered, marks) && KeysDone(m, covered, 0, m.height)
    ensures forall s :: m.Boundary(s) ==> (s in covered <==> !Only(m, UPWARD, s))
  {
    KeysCoverAll(m, marks, covered);
  }

  lemma EmittedStart(m: Map, labels: map<Cell, Label>, partPolys: seq<seq<Polygon>>)
    requires m.Valid() && forall p :: 0 <= p < |partPolys| ==> partPolys[p] == []
    ensures Emitted(m, labels, partPolys, {})
  {
    forall p | 0 <= p < |partPolys|
      ensures ListOk(m, labels, partPolys[p], {}, p)
    {
      assert Share(m, labels, {}, p) == {};
    }
  }
}
