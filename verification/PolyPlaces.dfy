/** Where the polygons of a wall part lie in the unwrapped plane: beside the part, as it is unrolled from
    its first cell. */
module PolyPlaces {
  import opened Basics
  import opened BlockMap
  import opened Reach
  import opened TracePoly
  import opened WallParts
  import opened BoundaryLoops

  /** The position of the cell holding the wedge just clockwise of ray d at the corner at p. */
  function WedgePos(p: Pos, d: Dir): Pos {
    match d
    case 0 => p
    case 1 => Step(p, 2)
    case 2 => Step(p, 2)
    case 3 => Step(p, 3)
    case 4 => Step(p, 3)
    case 5 => Step(p, 4)
    case 6 => Step(p, 4)
    case _ => p
  }

  /** The position of the wall cell on the left of a polygon entry. */
  function LeftPos(pt: Point): Pos {
    WedgePos(Pos(pt.x, pt.y), (DirOf(pt.v) + 1) % 8)
  }

  lemma WedgeWraps(m: Map, p: Pos, d: Dir)
    requires m.Valid()
    ensures var q := WedgePos(p, d); m.Wrap(q.x, q.y) == m.WedgeCell(m.Wrap(p.x, p.y), d)
  {
    hide Map.Go, Map.Wrap, Step;
    StepWraps(m, p, 2);
    StepWraps(m, p, 3);
    StepWraps(m, p, 4);
  }

  lemma LeftWraps(m: Map, pt: Point)
    requires m.Valid()
    ensures m.Wrap(LeftPos(pt).x, LeftPos(pt).y) == m.LeftCell(EdgeOf(m, pt))
  {
    hide Map.WedgeCell, Map.Wrap, WedgePos, DirOf;
    WedgeWraps(m, Pos(pt.x, pt.y), (DirOf(pt.v) + 1) % 8);
  }

  // ---------------------------------------------------------------- turning at a corner

  lemma WedgeSteps(p: Pos, d: Dir)
    ensures d % 2 == 0 ==> WedgePos(p, (d + 1) % 8) == Step(WedgePos(p, d), (d + 2) % 8)
    ensures d % 2 == 1 ==> WedgePos(p, (d + 1) % 8) == WedgePos(p, d)
  {
  }

  lemma StepBack(m: Map, p: Pos, d: Dir)
    requires m.Valid() && Joined(m, m.Wrap(p.x, p.y), d)
    ensures StepRel(m)(p, Step(p, d)) && StepRel(m)(Step(p, d), p)
  {
    hide Joined, Map.Go, Map.Wrap;
    StepWraps(m, p, d);
    JoinedBack(m, m.Wrap(p.x, p.y), d);
    assert p == Step(Step(p, d), (d + 4) % 8);
  }

  /** Neighbouring wall wedges at a corner belong to one piece of the unrolled wall. */
  lemma WedgesConnect(m: Map, p: Pos, d: Dir)
    requires m.Valid() && m.NoEdge(m.Wrap(p.x, p.y), d) && m.NoEdge(m.Wrap(p.x, p.y), (d + 1) % 8)
    ensures Connected(StepRel(m), WedgePos(p, d), WedgePos(p, (d + 1) % 8))
    ensures Connected(StepRel(m), WedgePos(p, (d + 1) % 8), WedgePos(p, d))
  {
    hide WallWedge, Map.WedgeCell, Map.Go, Map.Wrap, Ways, Joined, WedgePos, Step, Connected;
    var c, a, b := m.Wrap(p.x, p.y), WedgePos(p, d), WedgePos(p, (d + 1) % 8);
    WedgeSteps(p, d);
    WedgeWraps(m, p, d);
    WedgeWraps(m, p, (d + 1) % 8);
    Refl(StepRel(m), a);
    Refl(StepRel(m), b);
    if d % 2 == 0 {
      WedgePairTable(m.At(m.WedgeCell(c, d)), m.At(m.WedgeCell(c, (d + 1) % 8)), d);
      WedgeAcross(m, c, d);
      JoinedWays(m, m.WedgeCell(c, d), (d + 2) % 8);
      StepBack(m, a, (d + 2) % 8);
      Extend(StepRel(m), a, a, b);
      Extend(StepRel(m), b, b, a);
    }
  }

  /** 1 for the wedges whose cells belong to the same piece of the unrolled wall as position a. */
  ghost function Pieces(m: Map, a: Pos, p: Pos): (r: seq<int>)
    requires m.Valid()
    ensures |r| == 8 && forall d: Dir :: r[d] == if Connected(StepRel(m), a, WedgePos(p, d)) then 1 else 0
  {
    seq(8, d requires 0 <= d < 8 => if Connected(StepRel(m), a, WedgePos(p, d)) then 1 else 0)
  }

  lemma PiecesAgree(m: Map, a: Pos, p: Pos, d: Dir)
    requires m.Valid()
    ensures PairAgrees(m.Wedges(m.Wrap(p.x, p.y)), Pieces(m, a, p), d)
  {
    hide Map.NoEdge, Map.WedgeCell, Map.Wrap, WedgePos, Connected;
    var c := m.Wrap(p.x, p.y);
    if m.Wedges(c)[d] && m.Wedges(c)[(d + 1) % 8] {
      WedgesConnect(m, p, d);
      var u, v := WedgePos(p, d), WedgePos(p, (d + 1) % 8);
      if Connected(StepRel(m), a, u) {
        Trans(StepRel(m), a, u, v);
      }
      if Connected(StepRel(m), a, v) {
        Trans(StepRel(m), a, v, u);
      }
    }
  }

  /** The wall on the left of an edge is, at its far end, the wall in the wedge that is turned from. */
  lemma LeftAtEnd(p: Pos, d: Dir)
    ensures WedgePos(Step(p, d), (d + 4) % 8) == WedgePos(p, (d + 1) % 8)
  {
  }

  /** Following the boundary keeps to one piece of the unrolled wall. */
  lemma NextConnects(m: Map, p: Pos, d: Dir)
    requires m.Valid() && m.Boundary(Edge(m.Wrap(p.x, p.y), d))
    ensures var e := Next(m, Edge(m.Wrap(p.x, p.y), d)).d;
            Connected(StepRel(m), WedgePos(p, (d + 1) % 8), WedgePos(Step(p, d), (e + 1) % 8))
  {
    hide Map.NoEdge, Map.WedgeCell, Map.Go, Map.Wrap, WedgePos, Turn, Arrives, Step, PairAgrees, Connected;
    var n, a := Step(p, d), WedgePos(p, (d + 1) % 8);
    var c := m.Wrap(n.x, n.y);
    StepWraps(m, p, d);
    Transport(m, Edge(m.Wrap(p.x, p.y), d));
    LeftAtEnd(p, d);
    Refl(StepRel(m), a);
    AllPiecesAgree(m, a, n, d);
    TurnPart(m.Wedges(c), Pieces(m, a, n), d);
  }

  lemma AllPiecesAgree(m: Map, a: Pos, p: Pos, d: Dir)
    requires m.Valid()
    ensures TurnAgrees(m.Wedges(m.Wrap(p.x, p.y)), Pieces(m, a, p), d)
  {
    hide Map.Wrap, PairAgrees, Connected;
    PiecesAgree(m, a, p, (d + 3) % 8);
    PiecesAgree(m, a, p, (d + 2) % 8);
    PiecesAgree(m, a, p, (d + 1) % 8);
    PiecesAgree(m, a, p, d);
    PiecesAgree(m, a, p, (d + 7) % 8);
    PiecesAgree(m, a, p, (d + 6) % 8);
  }

  // ---------------------------------------------------------------- the places of polygons

  /** The entry lies beside part p: the wall on its left is where p lies when it is unrolled from its first
      cell. */
  ghost predicate InPlace(m: Map, seeds: seq<Cell>, p: nat, pt: Point)
    requires m.Valid()
  {
    Truthful(m, seeds, m.LeftCell(EdgeOf(m, pt)), Label(p, LeftPos(pt).x, LeftPos(pt).y))
  }

  ghost predicate PolyInPlace(m: Map, seeds: seq<Cell>, p: nat, poly: Polygon)
    requires m.Valid()
  {
    forall i :: 0 <= i < |poly| ==> InPlace(m, seeds, p, poly[i])
  }

  /** All polygons lie beside the parts in whose lists they are. */
  ghost predicate AllInPlace(m: Map, seeds: seq<Cell>, partPolys: seq<seq<Polygon>>)
    requires m.Valid()
  {
    forall p, k :: 0 <= p < |partPolys| && 0 <= k < |partPolys[p]| ==> PolyInPlace(m, seeds, p, partPolys[p][k])
  }

  /** The next entry of a polygon is in place if this one is. */
  lemma NextInPlace(m: Map, seeds: seq<Cell>, p: nat, poly: Polygon, i: nat)
    requires m.Valid() && Traced(m, poly) && i + 1 < |poly| && InPlace(m, seeds, p, poly[i])
    ensures InPlace(m, seeds, p, poly[i + 1])
  {
    hide Map.Boundary, Map.Wrap, Next, WedgePos, DirOf, Dirs, Connected, Map.LeftCell;
    var pt, pt' := poly[i], poly[i + 1];
    assert Follows(m, EdgesOf(m, poly), i) && StepsOn(poly, i);
    assert m.Boundary(EdgesOf(m, poly)[i]);
    NextConnects(m, Pos(pt.x, pt.y), DirOf(pt.v));
    assert Step(Pos(pt.x, pt.y), DirOf(pt.v)) == Pos(pt'.x, pt'.y);
    LeftWraps(m, pt');
    var s := Pos(seeds[p].x, seeds[p].y);
    Trans(StepRel(m), s, LeftPos(pt), LeftPos(pt'));
  }

  lemma {:induction false} EntryInPlace(m: Map, seeds: seq<Cell>, p: nat, poly: Polygon, i: nat)
    requires m.Valid() && Traced(m, poly) && i < |poly| && InPlace(m, seeds, p, poly[0])
    ensures InPlace(m, seeds, p, poly[i])
  {
    hide Traced, InPlace;
    if 0 < i {
      EntryInPlace(m, seeds, p, poly, i - 1);
      NextInPlace(m, seeds, p, poly, i - 1);
    }
  }

  /** A traced polygon that starts at the stored position of a wall cell lies beside the part of that cell. */
  lemma TracedInPlace(m: Map, labels: map<Cell, Label>, seeds: seq<Cell>, c: Cell, poly: Polygon)
    requires m.Valid() && IsPartition(m, labels, seeds) && c in labels
    requires Traced(m, poly) && 0 < |poly| && LeftPos(poly[0]) == Pos(labels[c].ux, labels[c].uy)
    ensures PolyInPlace(m, seeds, labels[c].part, poly)
  {
    hide Traced, Map.Wrap, LeftPos, ClosedAt, SeedsOk, Connected, Map.LeftCell, Wall;
    assert Truthful(m, seeds, c, labels[c]);
    LeftWraps(m, poly[0]);
    assert InPlace(m, seeds, labels[c].part, poly[0]);
    hide InPlace;
    forall i | 0 <= i < |poly|
      ensures InPlace(m, seeds, labels[c].part, poly[i])
    {
      EntryInPlace(m, seeds, labels[c].part, poly, i);
    }
  }

  lemma PlaceMore(m: Map, seeds: seq<Cell>, partPolys: seq<seq<Polygon>>, p: nat, poly: Polygon)
    requires m.Valid() && AllInPlace(m, seeds, partPolys) && p < |partPolys| && PolyInPlace(m, seeds, p, poly)
    ensures AllInPlace(m, seeds, partPolys[p := partPolys[p] + [poly]])
  {
    hide PolyInPlace;
  }

  // ---------------------------------------------------------------- what this means

  /** Any two entries of a part lie beside one piece of the unrolled wall. */
  lemma OnePiece(m: Map, seeds: seq<Cell>, p: nat, pt: Point, pt': Point)
    requires m.Valid() && InPlace(m, seeds, p, pt) && InPlace(m, seeds, p, pt')
    ensures Connected(StepRel(m), LeftPos(pt), LeftPos(pt'))
  {
    hide Map.LeftCell, LeftPos, Connected;
    var s := Pos(seeds[p].x, seeds[p].y);
    StepSymmetric(m);
    Sym(StepRel(m), s, LeftPos(pt));
    Trans(StepRel(m), LeftPos(pt), s, LeftPos(pt'));
  }

  lemma StepSymmetric(m: Map)
    requires m.Valid()
    ensures Symmetric(StepRel(m))
  {
    hide Joined, Map.Wrap;
    forall a, b | StepRel(m)(a, b)
      ensures StepRel(m)(b, a)
    {
      var d: Dir :| Joined(m, m.Wrap(a.x, a.y), d) && b == Step(a, d);
      StepBack(m, a, d);
    }
  }

  /** The part does not go around the map: when it is unrolled, no cell comes back in another place. */
  ghost predicate NoWrap(m: Map, seeds: seq<Cell>, p: nat)
    requires m.Valid() && p < |seeds|
  {
    var s := Pos(seeds[p].x, seeds[p].y);
    forall a, b ::
      Connected(StepRel(m), s, a) && Connected(StepRel(m), s, b) && m.Wrap(a.x, a.y) == m.Wrap(b.x, b.y) ==> a == b
  }

  /** Then every corner is at the stored position of the wall cell on its left, plus the place of the corner
      at that cell. */
  lemma ExactPlace(m: Map, labels: map<Cell, Label>, seeds: seq<Cell>, p: nat, pt: Point)
    requires m.Valid() && IsPartition(m, labels, seeds) && p < |seeds|
    requires InPlace(m, seeds, p, pt) && NoWrap(m, seeds, p)
    requires PartOf(m, labels, EdgeOf(m, pt)) == p
    ensures var c := m.LeftCell(EdgeOf(m, pt)); c in labels && LeftPos(pt) == Pos(labels[c].ux, labels[c].uy)
  {
    hide Map.LeftCell, LeftPos, Connected, Wall, ClosedAt, SeedsOk, Map.Wrap;
    var c := m.LeftCell(EdgeOf(m, pt));
    assert Truthful(m, seeds, c, labels[c]);
    LeftWraps(m, pt);
  }
}
