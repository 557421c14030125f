/** The boundary edges of the wall fall into disjoint loops, each bounding one part; what it means
    for a list of polygons to walk a set of loops exactly once. */
module BoundaryLoops {
  import opened Basics
  import opened BlockMap
  import opened TracePoly
  import opened WallParts

  /** A set of boundary edges that is a union of whole loops. */
  ghost predicate Loops(m: Map, s: set<Edge>)
    requires m.Valid()
  {
    forall e :: (e in s ==> m.Boundary(e)) && (m.Boundary(e) ==> (e in s <==> Next(m, e) in s))
  }

  /** e lies on a union of loops whose edges all go in directions of ds. */
  ghost predicate Only(m: Map, ds: set<Dir>, e: Edge)
    requires m.Valid()
  {
    exists s :: OnlyIn(m, ds, e, s)
  }

  ghost predicate OnlyIn(m: Map, ds: set<Dir>, e: Edge, s: set<Edge>)
    requires m.Valid()
  {
    Loops(m, s) && e in s && forall r :: r in s ==> r.d in ds
  }

  function SetOf(path: seq<Edge>): set<Edge> {
    set e | e in path
  }

  // ---------------------------------------------------------------- loops

  lemma {:induction false} ChainWithin(m: Map, path: seq<Edge>, s: set<Edge>, i: nat, j: nat)
    requires m.Valid() && Chain(m, path) && Loops(m, s) && i < |path| && j < |path| && path[i] in s
    ensures path[j] in s
    decreases if i < j then j - i else i - j
  {
    hide Next, Map.Boundary;
    if i < j {
      assert Follows(m, path, i);
      ChainWithin(m, path, s, i + 1, j);
    } else if j < i {
      assert Follows(m, path, i - 1);
      ChainWithin(m, path, s, i - 1, j);
    }
  }

  /** A chain that meets a union of loops lies inside it, and so does its next edge. */
  lemma ChainInside(m: Map, path: seq<Edge>, s: set<Edge>, e: Edge)
    requires m.Valid() && Chain(m, path) && Loops(m, s) && e in path && e in s
    ensures SetOf(path) <= s && Next(m, path[|path| - 1]) in s
  {
    hide Next, Map.Boundary;
    var i :| 0 <= i < |path| && path[i] == e;
    forall r | r in path
      ensures r in s
    {
      var j :| 0 <= j < |path| && path[j] == r;
      ChainWithin(m, path, s, i, j);
    }
  }

  lemma CycleIsLoop(m: Map, path: seq<Edge>)
    requires m.Valid() && Cycle(m, path)
    ensures Loops(m, SetOf(path))
  {
    forall e | m.Boundary(e)
      ensures e in SetOf(path) <==> Next(m, e) in SetOf(path)
    {
      CycleSteps(m, path, e);
    }
  }

  lemma CycleSteps(m: Map, path: seq<Edge>, e: Edge)
    requires m.Valid() && Cycle(m, path) && m.Boundary(e)
    ensures e in path <==> Next(m, e) in path
  {
    hide Next, Map.NoEdge;
    if e in path {
      var i :| 0 <= i < |path| && path[i] == e;
      assert i < |path| - 1 ==> Follows(m, path, i);
    }
    if Next(m, e) in path {
      var j :| 0 <= j < |path| && path[j] == Next(m, e);
      var i := if j == 0 then |path| - 1 else j - 1;
      assert 0 < j ==> Follows(m, path, i);
      NextInjective(m, e, path[i]);
    }
  }

  lemma LoopsUnion(m: Map, s: set<Edge>, t: set<Edge>)
    requires m.Valid() && Loops(m, s) && Loops(m, t)
    ensures Loops(m, s + t)
  {
    hide Next, Map.Boundary;
  }

  lemma LoopsRest(m: Map, s: set<Edge>)
    requires m.Valid() && Loops(m, s)
    ensures Loops(m, m.BoundaryEdges() - s)
  {
    forall e | m.Boundary(e)
      ensures m.Boundary(Next(m, e))
    {
      NextBoundary(m, e);
    }
    hide Next, Map.NoEdge;
  }

  /** Two sets of loops that do not share the start of a cycle do not share any of its edges. */
  lemma CycleApart(m: Map, path: seq<Edge>, s: set<Edge>)
    requires m.Valid() && Cycle(m, path) && Loops(m, s) && path[0] !in s
    ensures SetOf(path) !! s
  {
    hide Next, Map.Boundary, Loops;
    if e :| e in SetOf(path) && e in s {
      ChainInside(m, path, s, e);
    }
  }

  // ---------------------------------------------------------------- parts

  /** The part an edge bounds: the part of the wall on its left. */
  ghost function PartOf(m: Map, labels: map<Cell, Label>, s: Edge): int
    requires m.Valid() && m.Has(s.c)
  {
    if m.LeftCell(s) in labels then labels[m.LeftCell(s)].part else -1
  }

  ghost function PartBoundary(m: Map, labels: map<Cell, Label>, p: int): set<Edge>
    requires m.Valid()
  {
    set s | s in m.BoundaryEdges() && PartOf(m, labels, s) == p
  }

  ghost function PartAt(labels: map<Cell, Label>, c: Cell): int {
    if c in labels then labels[c].part else -1
  }

  lemma WedgeWall(b: char, d: Dir)
    requires WallWedge(b, d)
    ensures Wall(b)
  {
  }

  lemma WedgePairTable(b: char, b': char, d: Dir)
    requires d % 2 == 0 && WallWedge(b, d) && WallWedge(b', (d + 1) % 8)
    ensures (d + 2) % 8 in Ways(b) && (d + 6) % 8 in Ways(b')
  {
  }

  /** Joined cells are in the same part. */
  lemma JoinedParts(m: Map, labels: map<Cell, Label>, seeds: seq<Cell>, a: Cell, d: Dir)
    requires m.Valid() && IsPartition(m, labels, seeds) && Joined(m, a, d) && Wall(m.At(a))
    ensures PartAt(labels, a) == PartAt(labels, m.Go(a, d))
  {
    hide Map.Go, Truthful, SeedsOk;
    assert ClosedAt(m, labels, a);
  }

  /** Two neighbouring wall wedges at a corner lie in the same part. */
  lemma WedgePair(m: Map, labels: map<Cell, Label>, seeds: seq<Cell>, c: Cell, d: Dir)
    requires m.Valid() && IsPartition(m, labels, seeds) && m.Has(c)
    requires m.NoEdge(c, d) && m.NoEdge(c, (d + 1) % 8)
    ensures PartAt(labels, m.WedgeCell(c, d)) == PartAt(labels, m.WedgeCell(c, (d + 1) % 8))
  {
    hide WallWedge, Map.WedgeCell, Map.Go, IsPartition, Ways, Wall, Joined;
    var a, b := m.WedgeCell(c, d), m.WedgeCell(c, (d + 1) % 8);
    if d % 2 == 0 {
      WedgeWall(m.At(a), d);
      WedgePairTable(m.At(a), m.At(b), d);
      WedgeAcross(m, c, d);
      JoinedWays(m, a, (d + 2) % 8);
      JoinedParts(m, labels, seeds, a, (d + 2) % 8);
    } else {
      WedgeSame(m, c, d);
    }
  }

  lemma WedgeSame(m: Map, c: Cell, d: Dir)
    requires m.Valid() && m.Has(c) && d % 2 == 1
    ensures m.WedgeCell(c, d) == m.WedgeCell(c, (d + 1) % 8)
  {
  }

  lemma WedgeAcross(m: Map, c: Cell, d: Dir)
    requires m.Valid() && m.Has(c) && d % 2 == 0
    ensures m.Go(m.WedgeCell(c, d), (d + 2) % 8) == m.WedgeCell(c, (d + 1) % 8)
  {
    hide Mod;
    WrapHome(m, c);
    GoGo(m, c, 2, 4);
    GoGo(m, c, 3, 6);
    GoGo(m, c, 4, 0);
  }

  predicate PairAgrees(w: seq<bool>, p: seq<int>, j: Dir)
    requires |w| == 8 && |p| == 8
  {
    w[j] && w[(j + 1) % 8] ==> p[j] == p[(j + 1) % 8]
  }

  /** Along the rays that a turn after direction d may reject, neighbouring wall wedges agree on p. */
  predicate TurnAgrees(w: seq<bool>, p: seq<int>, d: Dir)
    requires |w| == 8 && |p| == 8
  {
    && PairAgrees(w, p, (d + 3) % 8) && PairAgrees(w, p, (d + 2) % 8) && PairAgrees(w, p, (d + 1) % 8)
    && PairAgrees(w, p, d) && PairAgrees(w, p, (d + 7) % 8) && PairAgrees(w, p, (d + 6) % 8)
  }

  lemma TurnPartRight(w: seq<bool>, p: seq<int>, d: Dir)
    requires |w| == 8 && |p| == 8 && Arrives(w, d) && d < 2
    requires TurnAgrees(w, p, d)
    ensures p[LeftOf(Turn(w, d))] == p[(d + 4) % 8]
  {
  }

  lemma TurnPartUp(w: seq<bool>, p: seq<int>, d: Dir)
    requires |w| == 8 && |p| == 8 && Arrives(w, d) && 2 <= d < 4
    requires TurnAgrees(w, p, d)
    ensures p[LeftOf(Turn(w, d))] == p[(d + 4) % 8]
  {
  }

  lemma TurnPartBack(w: seq<bool>, p: seq<int>, d: Dir)
    requires |w| == 8 && |p| == 8 && Arrives(w, d) && 4 <= d < 6
    requires TurnAgrees(w, p, d)
    ensures p[LeftOf(Turn(w, d))] == p[(d + 4) % 8]
  {
  }

  lemma TurnPartDown(w: seq<bool>, p: seq<int>, d: Dir)
    requires |w| == 8 && |p| == 8 && Arrives(w, d) && 6 <= d
    requires TurnAgrees(w, p, d)
    ensures p[LeftOf(Turn(w, d))] == p[(d + 4) % 8]
  {
  }

  /** Turning from ray d+4 down to the free ray: all the wall wedges passed agree on p. */
  lemma TurnPart(w: seq<bool>, p: seq<int>, d: Dir)
    requires |w| == 8 && |p| == 8 && Arrives(w, d)
    requires TurnAgrees(w, p, d)
    ensures p[LeftOf(Turn(w, d))] == p[(d + 4) % 8]
  {
    hide TurnAgrees, Turn, LeftOf;
    if d < 2 {
      TurnPartRight(w, p, d);
    } else if d < 4 {
      TurnPartUp(w, p, d);
    } else if d < 6 {
      TurnPartBack(w, p, d);
    } else {
      TurnPartDown(w, p, d);
    }
  }

  function LeftOf(d: Dir): Dir {
    if d == 7 then 0 else d + 1
  }

  lemma AllAgree(m: Map, labels: map<Cell, Label>, seeds: seq<Cell>, c: Cell, d: Dir)
    requires m.Valid() && IsPartition(m, labels, seeds) && m.Has(c)
    ensures TurnAgrees(m.Wedges(c), Parts(m, labels, c), d)
  {
    hide IsPartition, PairAgrees, Map.NoEdge, Map.WedgeCell;
    WedgesAgree(m, labels, seeds, c, (d + 3) % 8);
    WedgesAgree(m, labels, seeds, c, (d + 2) % 8);
    WedgesAgree(m, labels, seeds, c, (d + 1) % 8);
    WedgesAgree(m, labels, seeds, c, d);
    WedgesAgree(m, labels, seeds, c, (d + 7) % 8);
    WedgesAgree(m, labels, seeds, c, (d + 6) % 8);
  }

  /** Turning at a corner keeps the wall on the left in the same part. */
  lemma NextPart(m: Map, labels: map<Cell, Label>, seeds: seq<Cell>, s: Edge)
    requires m.Valid() && IsPartition(m, labels, seeds) && m.Boundary(s)
    ensures PartOf(m, labels, Next(m, s)) == PartOf(m, labels, s)
  {
    var n := m.Go(s.c, s.d);
    hide Map.NoEdge, Map.WedgeCell, Map.Go, IsPartition, Turn, TurnAgrees, PartAt, PartOf, Arrives, Next, LeftOf;
    AllAgree(m, labels, seeds, n, s.d);
    Transport(m, s);
    TurnPart(m.Wedges(n), Parts(m, labels, n), s.d);
    WedgesAlong(m, s.c, s.d);
    NextPartOf(m, labels, s);
  }

  lemma NextPartOf(m: Map, labels: map<Cell, Label>, s: Edge)
    requires m.Valid() && m.Boundary(s)
    ensures var n := m.Go(s.c, s.d);
            && PartOf(m, labels, Next(m, s)) == PartAt(labels, m.WedgeCell(n, LeftOf(Turn(m.Wedges(n), s.d))))
            && PartOf(m, labels, s) == PartAt(labels, m.WedgeCell(s.c, (s.d + 1) % 8))
  {
    hide Map.NoEdge, Map.WedgeCell, Map.Go, Turn;
  }

  ghost function Parts(m: Map, labels: map<Cell, Label>, c: Cell): (p: seq<int>)
    requires m.Valid() && m.Has(c)
    ensures |p| == 8 && forall d: Dir :: p[d] == PartAt(labels, m.WedgeCell(c, d))
  {
    seq(8, d requires 0 <= d < 8 => PartAt(labels, m.WedgeCell(c, d)))
  }

  lemma WedgesAgree(m: Map, labels: map<Cell, Label>, seeds: seq<Cell>, c: Cell, j: Dir)
    requires m.Valid() && IsPartition(m, labels, seeds) && m.Has(c)
    ensures PairAgrees(m.Wedges(c), Parts(m, labels, c), j)
  {
    hide Map.NoEdge, Map.WedgeCell, IsPartition;
    if m.Wedges(c)[j] && m.Wedges(c)[(j + 1) % 8] {
      WedgePair(m, labels, seeds, c, j);
    }
  }

  lemma {:induction false} ChainPart(m: Map, labels: map<Cell, Label>, seeds: seq<Cell>, path: seq<Edge>, i: nat)
    requires m.Valid() && IsPartition(m, labels, seeds) && Chain(m, path) && i < |path|
    ensures PartOf(m, labels, path[i]) == PartOf(m, labels, path[0])
    decreases i
  {
    hide IsPartition, Map.NoEdge, PartOf, Next;
    if 0 < i {
      assert Follows(m, path, i - 1);
      NextPart(m, labels, seeds, path[i - 1]);
      ChainPart(m, labels, seeds, path, i - 1);
    }
  }

  // ---------------------------------------------------------------- what has been emitted

  /** All edges of a list of polygons, with multiplicity. */
  ghost function PolyBag(m: Map, polys: seq<Polygon>): multiset<Edge>
    requires m.Valid()
  {
    if polys == [] then multiset{}
    else PolyBag(m, polys[..|polys| - 1]) + multiset(EdgesOf(m, polys[|polys| - 1]))
  }

  /** The covered edges that bound part p. */
  ghost function Share(m: Map, labels: map<Cell, Label>, covered: set<Edge>, p: int): set<Edge>
    requires m.Valid()
  {
    set s | s in covered && m.Has(s.c) && PartOf(m, labels, s) == p
  }

  /** The polygons emitted so far are closed boundary walks, and those of part p walk the covered
      edges of part p, each exactly once. */
  ghost predicate Emitted(m: Map, labels: map<Cell, Label>, partPolys: seq<seq<Polygon>>, covered: set<Edge>)
    requires m.Valid()
  {
    Loops(m, covered) && ListsOk(m, labels, partPolys, covered)
  }

  ghost predicate AllTraced(m: Map, polys: seq<Polygon>)
    requires m.Valid()
  {
    forall i :: 0 <= i < |polys| ==> Traced(m, polys[i])
  }

  lemma {:induction false} BagOfDistinct(path: seq<Edge>)
    requires Distinct(path)
    ensures multiset(path) == multiset(SetOf(path))
  {
    if path == [] {
      assert SetOf(path) == {};
    } else {
      var init, last := path[..|path| - 1], path[|path| - 1];
      BagOfDistinct(init);
      assert path == init + [last];
      assert SetOf(path) == SetOf(init) + {last};
      assert last !in SetOf(init);
    }
  }

  lemma BagExtend(m: Map, polys: seq<Polygon>, poly: Polygon)
    requires m.Valid() && AllTraced(m, polys) && Traced(m, poly)
    ensures PolyBag(m, polys + [poly]) == PolyBag(m, polys) + multiset(EdgesOf(m, poly))
    ensures AllTraced(m, polys + [poly])
  {
    hide Traced;
    assert (polys + [poly])[..|polys|] == polys;
  }

  ghost predicate AllInPart(m: Map, labels: map<Cell, Label>, edges: set<Edge>, p: int)
    requires m.Valid()
  {
    forall s :: s in edges ==> m.Has(s.c) && PartOf(m, labels, s) == p
  }

  lemma ShareExtend(m: Map, labels: map<Cell, Label>, covered: set<Edge>, new_: set<Edge>, p: int, q: int)
    requires m.Valid() && covered !! new_ && AllInPart(m, labels, new_, p)
    ensures q == p ==>
              multiset(Share(m, labels, covered + new_, q)) == multiset(Share(m, labels, covered, q)) + multiset(new_)
    ensures q != p ==> Share(m, labels, covered + new_, q) == Share(m, labels, covered, q)
  {
    hide PartOf;
    if q == p {
      assert Share(m, labels, covered + new_, p) == Share(m, labels, covered, p) + new_;
    }
  }

  lemma PathPart(m: Map, labels: map<Cell, Label>, seeds: seq<Cell>, path: seq<Edge>)
    requires m.Valid() && IsPartition(m, labels, seeds) && Chain(m, path)
    ensures forall s :: s in path ==> m.Has(s.c) && PartOf(m, labels, s) == PartOf(m, labels, path[0])
  {
    hide IsPartition, Map.NoEdge, PartOf, Next;
    forall s | s in path
      ensures m.Has(s.c) && PartOf(m, labels, s) == PartOf(m, labels, path[0])
    {
      var i :| 0 <= i < |path| && path[i] == s;
      ChainPart(m, labels, seeds, path, i);
    }
  }

  /** A cycle that starts outside the covered loops is a new loop, all of it in one part. */
  lemma NewLoop(m: Map, labels: map<Cell, Label>, seeds: seq<Cell>, covered: set<Edge>, path: seq<Edge>)
    requires m.Valid() && IsPartition(m, labels, seeds) && Loops(m, covered)
    requires Cycle(m, path) && path[0] !in covered
    ensures Distinct(path) && SetOf(path) !! covered && Loops(m, SetOf(path)) && Loops(m, covered + SetOf(path))
    ensures m.Has(path[0].c) && AllInPart(m, labels, SetOf(path), PartOf(m, labels, path[0]))
  {
    hide Map.NoEdge, Next, PartOf, IsPartition, Loops;
    PathPart(m, labels, seeds, path);
    CycleApart(m, path, covered);
    CycleIsLoop(m, path);
    LoopsUnion(m, covered, SetOf(path));
  }

  /** The part p list and its edges agree. */
  ghost predicate ListOk(m: Map, labels: map<Cell, Label>, polys: seq<Polygon>, covered: set<Edge>, p: int)
    requires m.Valid()
  {
    PolyBag(m, polys) == multiset(Share(m, labels, covered, p)) && AllTraced(m, polys)
  }

  lemma EmitOne(m: Map, labels: map<Cell, Label>, polys: seq<Polygon>, covered: set<Edge>, poly: Polygon,
                path: seq<Edge>, p: int)
    requires m.Valid() && Traced(m, poly) && EdgesOf(m, poly) == path && Distinct(path) && SetOf(path) !! covered
    requires AllInPart(m, labels, SetOf(path), p) && ListOk(m, labels, polys, covered, p)
    ensures ListOk(m, labels, polys + [poly], covered + SetOf(path), p)
  {
    hide AllInPart, Share, PolyBag, Traced, EdgesOf, AllTraced, Distinct;
    BagOfDistinct(path);
    BagExtend(m, polys, poly);
    ShareExtend(m, labels, covered, SetOf(path), p, p);
  }

  lemma EmitOther(m: Map, labels: map<Cell, Label>, polys: seq<Polygon>, covered: set<Edge>, new_: set<Edge>, p: int,
                  q: int)
    requires m.Valid() && covered !! new_ && AllInPart(m, labels, new_, p) && q != p
    requires ListOk(m, labels, polys, covered, q)
    ensures ListOk(m, labels, polys, covered + new_, q)
  {
    hide AllInPart, Share;
    ShareExtend(m, labels, covered, new_, p, q);
  }

  ghost predicate ListsOk(m: Map, labels: map<Cell, Label>, partPolys: seq<seq<Polygon>>, covered: set<Edge>)
    requires m.Valid()
  {
    forall p :: 0 <= p < |partPolys| ==> ListOk(m, labels, partPolys[p], covered, p)
  }

  lemma EmitLists(m: Map, labels: map<Cell, Label>, partPolys: seq<seq<Polygon>>, covered: set<Edge>,
                  poly: Polygon, path: seq<Edge>, p: nat)
    requires m.Valid() && ListsOk(m, labels, partPolys, covered) && p < |partPolys|
    requires Traced(m, poly) && EdgesOf(m, poly) == path && Distinct(path) && SetOf(path) !! covered
    requires AllInPart(m, labels, SetOf(path), p)
    ensures ListsOk(m, labels, partPolys[p := partPolys[p] + [poly]], covered + SetOf(path))
  {
    hide Traced, EdgesOf, ListOk, AllInPart, SetOf, Distinct;
    EmitOne(m, labels, partPolys[p], covered, poly, path, p);
    forall q | 0 <= q < |partPolys| && q != p
      ensures ListOk(m, labels, partPolys[q], covered + SetOf(path), q)
    {
      EmitOther(m, labels, partPolys[q], covered, SetOf(path), p, q);
    }
  }

  /** Appending the polygon of a new loop to the list of its part. */
  lemma Emit(m: Map, labels: map<Cell, Label>, seeds: seq<Cell>, partPolys: seq<seq<Polygon>>, covered: set<Edge>,
             poly: Polygon, path: seq<Edge>, p: nat)
    requires m.Valid() && IsPartition(m, labels, seeds) && Emitted(m, labels, partPolys, covered)
    requires Traced(m, poly) && EdgesOf(m, poly) == path && path[0] !in covered
    requires p < |partPolys| && m.Has(path[0].c) && PartOf(m, labels, path[0]) == p
    ensures Emitted(m, labels, partPolys[p := partPolys[p] + [poly]], covered + SetOf(path))
    ensures Cycle(m, path) && SetOf(path) !! covered && Loops(m, SetOf(path))
  {
    assert Cycle(m, path);
    hide Cycle, PartOf, IsPartition, Traced, EdgesOf, ListsOk, Loops, AllInPart, SetOf, Distinct;
    NewLoop(m, labels, seeds, covered, path);
    EmitLists(m, labels, partPolys, covered, poly, path, p);
  }

  // ---------------------------------------------------------------- the key edge of a block

  /** The edge from which the main scan traces the loop at block c, if the block has one. */
  function KeyOf(m: Map, c: Cell): Option<Edge>
    requires m.Valid() && m.Has(c)
  {
    var b := m.At(c);
    var l := m.At(m.Go(c, 4));
    if b == REC_UR then Some(Edge(c, 7))
    else if b == REC_DR then Some(Edge(m.Go(c, 0), 5))
    else if b == REC_DL then Some(Edge(m.Go(c, 7), 3))
    else if b == REC_UL then Some(Edge(m.Go(c, 6), 1))
    else if Filled(b) && !(Filled(l) || l == REC_DR || l == REC_UR) then Some(Edge(c, 6))
    else None
  }

  lemma AroundCell(m: Map, c: Cell)
    requires m.Valid() && m.Has(c)
    ensures m.Go(m.Go(c, 0), 4) == c && m.Go(m.Go(c, 7), 3) == c && m.Go(m.Go(c, 6), 2) == c && m.Go(m.Go(c, 4), 0) == c
    ensures m.Go(m.Go(c, 2), 6) == c && m.Go(m.Go(c, 3), 7) == c
  {
    hide Map.Go, Mod;
    GoBack(m, c, 0);
    GoBack(m, c, 7);
    GoBack(m, c, 6);
    GoBack(m, c, 4);
    GoBack(m, c, 2);
    GoBack(m, c, 3);
  }

  /** An edge whose wedges lie in r, without wall, and in c, with wall. */
  lemma EdgeBetween(m: Map, s: Edge, r: Cell, c: Cell)
    requires m.Valid() && m.Has(s.c) && m.WedgeCell(s.c, s.d) == r && m.WedgeCell(s.c, (s.d + 1) % 8) == c
    requires !WallWedge(m.At(r), s.d) && WallWedge(m.At(c), (s.d + 1) % 8) && s.d in {1, 3, 5, 6, 7}
    ensures m.Boundary(s) && MarksDone(m, s, c) && m.LeftCell(s) == c
  {
    hide WallWedge, Map.WedgeCell;
  }

  /** The cells beside the key edges of the half blocks, and beside the left side of a block. */
  lemma WedgesAtKeys(m: Map, c: Cell)
    requires m.Valid() && m.Has(c)
    ensures m.WedgeCell(c, 7) == c == m.WedgeCell(c, 0) && m.WedgeCell(c, 6) == m.Go(c, 4)
    ensures m.WedgeCell(m.Go(c, 0), 5) == c == m.WedgeCell(m.Go(c, 0), 6)
    ensures m.WedgeCell(m.Go(c, 7), 3) == c == m.WedgeCell(m.Go(c, 7), 4)
    ensures m.WedgeCell(m.Go(c, 6), 1) == c == m.WedgeCell(m.Go(c, 6), 2)
  {
    hide Map.Go;
    AroundCell(m, c);
  }

  lemma HalfBlockWedges(b: char)
    ensures b == REC_UR ==> !WallWedge(b, 7) && WallWedge(b, 0)
    ensures b == REC_DR ==> !WallWedge(b, 5) && WallWedge(b, 6)
    ensures b == REC_DL ==> !WallWedge(b, 3) && WallWedge(b, 4)
    ensures b == REC_UL ==> !WallWedge(b, 1) && WallWedge(b, 2)
  {
  }

  lemma LeftSideWedges(b: char, l: char)
    requires Filled(b) && !(Filled(l) || l == REC_DR || l == REC_UR)
    ensures !WallWedge(l, 6) && WallWedge(b, 7)
  {
  }

  /** A key edge is a boundary edge whose walking marks its own block. */
  lemma KeyIsBoundary(m: Map, c: Cell)
    requires m.Valid() && m.Has(c) && KeyOf(m, c).Some?
    ensures var k := KeyOf(m, c).value; m.Boundary(k) && MarksDone(m, k, c) && m.LeftCell(k) == c
  {
    hide Map.Go, Map.WedgeCell, WallWedge, Map.Boundary, MarksDone, Filled;
    WedgesAtKeys(m, c);
    HalfBlockWedges(m.At(c));
    var k := KeyOf(m, c).value;
    if k == Edge(c, 6) {
      LeftSideWedges(m.At(c), m.At(m.Go(c, 4)));
      EdgeBetween(m, k, m.Go(c, 4), c);
    } else {
      EdgeBetween(m, k, c, c);
    }
  }

  /** If the leftmost ray is free, the next edge takes it. */
  lemma FirstRay(m: Map, s: Edge)
    requires m.Valid() && m.Has(s.c) && !m.NoEdge(m.Go(s.c, s.d), (s.d + 3) % 8)
    ensures Next(m, s) == Edge(m.Go(s.c, s.d), (s.d + 3) % 8)
  {
    hide Map.Go, Map.NoEdge;
  }

  /** An edge that marks a block is its key edge or next to it on the same loop. */
  lemma MarkNearKey(m: Map, s: Edge, c: Cell)
    requires m.Valid() && m.Boundary(s) && MarksDone(m, s, c)
    ensures KeyOf(m, c).Some?
    ensures var k := KeyOf(m, c).value; k == s || Next(m, k) == s || Next(m, s) == k
  {
    hide Map.Go, Next;
    GoBack(m, s.c, 2);
    GoBack(m, s.c, 3);
    GoBack(m, s.c, 4);
    AroundCell(m, c);
    var k := KeyOf(m, c).value;
    if s.d == 6 && m.At(c) == REC_DL {
      FirstRay(m, k);
    } else if s.d == 6 && m.At(c) == REC_UL {
      FirstRay(m, s);
    }
  }
}
