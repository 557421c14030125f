/** A part of the wall without any boundary edge: it fills the whole map. */
module FullMap {
  import opened Basics
  import opened BlockMap
  import opened TracePoly
  import opened WallParts
  import opened BoundaryLoops

  ghost predicate AllFilled(m: Map)
    requires m.Valid()
  {
    forall c :: m.Has(c) ==> Filled(m.At(c))
  }

  ghost predicate InPart(labels: map<Cell, Label>, c: Cell, p: int) {
    c in labels && labels[c].part == p
  }

  ghost predicate NoEdges(m: Map, labels: map<Cell, Label>, p: int)
    requires m.Valid()
  {
    forall s :: m.Boundary(s) ==> PartOf(m, labels, s) != p
  }

  lemma BoundaryHas(m: Map, s: Edge)
    requires m.Valid()
    ensures m.Boundary(s) ==> m.Has(s.c)
  {
  }

  lemma NoEdgesMeans(m: Map, labels: map<Cell, Label>, p: int)
    requires m.Valid()
    ensures NoEdges(m, labels, p) <==> PartBoundary(m, labels, p) == {}
  {
    hide Map.Boundary;
    forall s
      ensures s in PartBoundary(m, labels, p) <==> m.Boundary(s) && m.Has(s.c) && PartOf(m, labels, s) == p
    {
      BoundaryHas(m, s);
    }
  }

  /** A half block has a boundary edge, its diagonal. */
  lemma BlockFilled(m: Map, labels: map<Cell, Label>, p: int, c: Cell)
    requires m.Valid() && m.Has(c) && Wall(m.At(c)) && InPart(labels, c, p) && NoEdges(m, labels, p)
    ensures Filled(m.At(c))
  {
    hide Map.Boundary, Map.LeftCell;
    if KeyOf(m, c).Some? {
      KeyIsBoundary(m, c);
    }
  }

  /** If the block c is wall on the left of edge s, the block on the right belongs to the part as well. */
  lemma AcrossSide(m: Map, labels: map<Cell, Label>, seeds: seq<Cell>, p: int, c: Cell, s: Edge)
    requires m.Valid() && IsPartition(m, labels, seeds) && InPart(labels, c, p) && NoEdges(m, labels, p) && p >= 0
    requires m.Has(s.c) && m.WedgeCell(s.c, (s.d + 1) % 8) == c && m.NoEdge(s.c, (s.d + 1) % 8)
    ensures InPart(labels, m.WedgeCell(s.c, s.d), p)
  {
    hide IsPartition, Map.WedgeCell, Map.NoEdge;
    WedgesAgree(m, labels, seeds, s.c, s.d);
    assert PartOf(m, labels, s) == p;
    assert !m.Boundary(s);
    assert m.Wedges(s.c)[s.d] && m.Wedges(s.c)[(s.d + 1) % 8];
    assert Parts(m, labels, s.c)[s.d] == Parts(m, labels, s.c)[(s.d + 1) % 8];
  }

  /** The cells on both sides of the bottom and of the right side of a block. */
  lemma SideCells(m: Map, c: Cell)
    requires m.Valid() && m.Has(c)
    ensures m.WedgeCell(m.Go(c, 6), 1) == c && m.WedgeCell(m.Go(c, 6), 0) == m.Go(c, 6)
    ensures m.WedgeCell(m.Go(c, 7), 3) == c && m.WedgeCell(m.Go(c, 7), 2) == m.Go(c, 0)
  {
    AroundCell(m, c);
    GoGo(m, c, 7, 2);
  }

  /** The blocks to the right of a block and below it belong to the same part. */
  lemma NextBlocks(m: Map, labels: map<Cell, Label>, seeds: seq<Cell>, p: int, c: Cell)
    requires m.Valid() && IsPartition(m, labels, seeds) && InPart(labels, c, p) && NoEdges(m, labels, p) && p >= 0
    requires m.Has(c) && Filled(m.At(c))
    ensures InPart(labels, m.Go(c, 0), p) && InPart(labels, m.Go(c, 6), p)
  {
    hide IsPartition, Map.Go, NoEdges, InPart, Filled;
    SideCells(m, c);
    FilledWedges(m.At(c));
    AcrossSide(m, labels, seeds, p, c, Edge(m.Go(c, 6), 0));
    AcrossSide(m, labels, seeds, p, c, Edge(m.Go(c, 7), 2));
  }

  lemma FilledWedges(b: char)
    requires Filled(b)
    ensures WallWedge(b, 1) && WallWedge(b, 3)
  {
  }

  /** The steps to the right and down from c stay in u. */
  ghost predicate SpreadsAt(m: Map, u: iset<Cell>, c: Cell)
    requires m.Valid()
  {
    m.Go(c, 0) in u && m.Go(c, 6) in u
  }

  ghost predicate Spreads(m: Map, u: iset<Cell>)
    requires m.Valid()
  {
    forall c :: c in u ==> SpreadsAt(m, u, c)
  }

  lemma SpreadsMeans(m: Map, u: iset<Cell>, c: Cell)
    requires m.Valid() && SpreadsAt(m, u, c)
    ensures m.Go(c, 0) in u && m.Go(c, 6) in u
  {
  }

  lemma ModNext(a: int, n: nat)
    requires 0 <= a < n
    ensures Mod(a, n) == a && Mod(a + 1, n) == if a + 1 == n then 0 else a + 1
  {
    assert Mod(0, n) == 0;
  }

  lemma StepRight(m: Map, x: int, y: int)
    requires m.Valid() && m.Has(Cell(x, y))
    ensures m.Go(Cell(x, y), 0) == Cell(if x + 1 == m.width then 0 else x + 1, y)
  {
    hide Mod;
    ModNext(x, m.width);
    ModNext(y, m.height);
  }

  lemma StepDown(m: Map, x: int, y: int)
    requires m.Valid() && m.Has(Cell(x, y))
    ensures m.Go(Cell(x, y), 6) == Cell(x, if y + 1 == m.height then 0 else y + 1)
  {
    hide Mod;
    ModNext(x, m.width);
    ModNext(y, m.height);
  }

  lemma {:induction false} SpreadsRight(m: Map, u: iset<Cell>, x: int, x': int, y: int)
    requires m.Valid() && Spreads(m, u) && m.Has(Cell(x, y)) && 0 <= x' < m.width && Cell(x, y) in u
    ensures Cell(x', y) in u
    decreases if x <= x' then x' - x else m.width - x + x'
  {
    hide Map.Go, SpreadsAt;
    if x != x' {
      SpreadsMeans(m, u, Cell(x, y));
      StepRight(m, x, y);
      SpreadsRight(m, u, if x + 1 == m.width then 0 else x + 1, x', y);
    }
  }

  lemma {:induction false} SpreadsDown(m: Map, u: iset<Cell>, x: int, y: int, y': int)
    requires m.Valid() && Spreads(m, u) && m.Has(Cell(x, y)) && 0 <= y' < m.height && Cell(x, y) in u
    ensures Cell(x, y') in u
    decreases if y <= y' then y' - y else m.height - y + y'
  {
    hide Map.Go, SpreadsAt;
    if y != y' {
      SpreadsMeans(m, u, Cell(x, y));
      StepDown(m, x, y);
      SpreadsDown(m, u, x, if y + 1 == m.height then 0 else y + 1, y');
    }
  }

  ghost function Part(labels: map<Cell, Label>, p: int): iset<Cell> {
    iset c | InPart(labels, c, p)
  }

  /** In a part without boundary edges every block is filled, and the next ones belong to it too. */
  lemma FilledAt(m: Map, labels: map<Cell, Label>, seeds: seq<Cell>, p: nat, c: Cell)
    requires m.Valid() && IsPartition(m, labels, seeds) && NoEdges(m, labels, p) && InPart(labels, c, p)
    ensures m.Has(c) && Filled(m.At(c)) && SpreadsAt(m, Part(labels, p), c)
  {
    hide Map.Go, NoEdges, SeedsOk, Truthful, ClosedAt, Filled, Wall;
    BlockFilled(m, labels, p, c);
    NextBlocks(m, labels, seeds, p, c);
  }

  lemma PartSpreads(m: Map, labels: map<Cell, Label>, seeds: seq<Cell>, p: nat)
    requires m.Valid() && IsPartition(m, labels, seeds) && p < |seeds| && NoEdges(m, labels, p)
    ensures AllFilled(m)
  {
    hide IsPartition, NoEdges, SpreadsAt, InPart, Filled;
    var u := Part(labels, p);
    forall c | c in u
      ensures SpreadsAt(m, u, c)
    {
      FilledAt(m, labels, seeds, p, c);
    }
    SeedInPart(m, labels, seeds, p);
    var s := seeds[p];
    FilledAt(m, labels, seeds, p, s);
    forall c | m.Has(c)
      ensures Filled(m.At(c))
    {
      SpreadsRight(m, u, s.x, c.x, s.y);
      SpreadsDown(m, u, c.x, s.y, c.y);
      assert c == Cell(c.x, c.y);
      FilledAt(m, labels, seeds, p, c);
    }
  }

  lemma SeedInPart(m: Map, labels: map<Cell, Label>, seeds: seq<Cell>, p: nat)
    requires m.Valid() && IsPartition(m, labels, seeds) && p < |seeds|
    ensures InPart(labels, seeds[p], p)
  {
    hide Truthful, ClosedAt;
  }

  /** A part has no boundary edge if and only if every block of the map is filled. */
  lemma PartIsFull(m: Map, labels: map<Cell, Label>, seeds: seq<Cell>, p: nat)
    requires m.Valid() && IsPartition(m, labels, seeds) && p < |seeds|
    ensures PartBoundary(m, labels, p) == {} <==> AllFilled(m)
  {
    hide IsPartition, PartBoundary, NoEdges, AllFilled;
    NoEdgesMeans(m, labels, p);
    if NoEdges(m, labels, p) {
      PartSpreads(m, labels, seeds, p);
    }
    if AllFilled(m) {
      FilledNoEdges(m, labels, p);
    }
  }

  lemma FilledNoEdges(m: Map, labels: map<Cell, Label>, p: int)
    requires m.Valid() && AllFilled(m)
    ensures NoEdges(m, labels, p)
  {
    hide Map.WedgeCell, PartOf, Filled;
    forall s | m.Boundary(s)
      ensures false
    {
      FilledWedge(m.At(m.WedgeCell(s.c, s.d)), s.d);
    }
  }

  lemma FilledWedge(b: char, d: Dir)
    requires Filled(b)
    ensures WallWedge(b, d)
  {
  }
}
