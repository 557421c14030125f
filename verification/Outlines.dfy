/** makepolys of mapconvert.py as a whole: from the map to one outline for every part of the wall. */
module Outlines {
  import opened Basics
  import opened BlockMap
  import opened TracePoly
  import opened WallParts
  import opened BoundaryLoops
  import opened HorizontalLoops
  import opened FullMap
  import opened NearestPair
  import opened PolyDir
  import opened PolyPlaces
  import opened LinkTree
  import opened Polynodes
  import opened PolyLink
  import opened LinkPart
  import opened OutlineEdges

  /** The outline of a part; extrawrap asks for it to be cut open. */
  datatype Outline = Outline(entries: seq<Entry>, extrawrap: bool)

  // ---------------------------------------------------------------- the distance that is taken for infinite

  function SizeOf(poly: Polygon): nat {
    if poly == [] then 0 else Abs(poly[0].x) + Abs(poly[0].y) + SizeOf(poly[1..])
  }

  function SizeOfAll(polys: seq<Polygon>): nat {
    if polys == [] then 0 else SizeOf(polys[0]) + SizeOfAll(polys[1..])
  }

  /** A number above all squared distances between the points, for the 1e98 of the code. */
  function FarOf(polys: seq<Polygon>): int {
    var n := SizeOfAll(polys) + 1;
    8 * (n * n) + 1
  }

  lemma {:induction false} PointSmall(poly: Polygon, i: nat)
    requires i < |poly|
    ensures Abs(poly[i].x) <= SizeOf(poly) && Abs(poly[i].y) <= SizeOf(poly)
    decreases i
  {
    if 0 < i {
      PointSmall(poly[1..], i - 1);
    }
  }

  lemma {:induction false} PolySmall(polys: seq<Polygon>, p: Polygon)
    requires p in polys
    ensures SizeOf(p) <= SizeOfAll(polys)
  {
    hide SizeOf;
    if polys[0] != p {
      PolySmall(polys[1..], p);
    }
  }

  lemma FarEnough(m: Map, polys: seq<Polygon>)
    ensures InReach(m, polys, FarOf(polys))
  {
    hide SizeOf, SizeOfAll;
    forall p, q | p in polys && q in polys
      ensures Close(PlainWrapping(m), p, q, FarOf(polys))
    {
      forall i, j | 0 <= i < |p| && 0 <= j < |q|
        ensures Dist(PlainWrapping(m).wrap, p[i], q[j]) < FarOf(polys)
      {
        PointSmall(p, i);
        PointSmall(q, j);
        PolySmall(polys, p);
        PolySmall(polys, q);
        SmallSquare(Minus(q[j], p[i]), SizeOfAll(polys) + 1);
      }
    }
    FarPositive(SizeOfAll(polys) + 1);
  }

  lemma FarPositive(n: nat)
    ensures 0 <= n * n
  {
  }

  lemma SmallSquare(v: Vec, n: nat)
    requires Abs(v.dx) <= 2 * n && Abs(v.dy) <= 2 * n
    ensures Sq(v) < 8 * (n * n) + 1
  {
    SquareBound(v.dx, 2 * n);
    SquareBound(v.dy, 2 * n);
    assert (2 * n) * (2 * n) == 4 * (n * n);
  }

  // ---------------------------------------------------------------- makepolys

  ghost predicate Linkable(polys: seq<Polygon>) {
    NonEmpty(polys) && CanLink(polys)
  }

  /** All polygons of the part are inner ones. */
  ghost predicate OnlyInner(polys: seq<Polygon>) {
    forall p :: p in polys ==> p != [] && Turning(p, |p|) < 0
  }

  lemma TracedAllNonEmpty(m: Map, polys: seq<Polygon>)
    requires m.Valid() && AllTraced(m, polys)
    ensures NonEmpty(polys)
  {
    hide Traced;
    forall i | 0 <= i < |polys|
      ensures 0 < |polys[i]|
    {
      TracedNonEmpty(m, polys[i]);
    }
  }

  /** Apart from links, the outline takes each boundary edge of part p once, and no other edge. */
  ghost predicate OutlineOk(m: Map, labels: map<Cell, Label>, p: int, o: Outline)
    requires m.Valid()
  {
    multiset(SideEdges(m, o.entries)) == multiset(PartBoundary(m, labels, p))
  }

  lemma {:induction false} BagEmpty(m: Map, polys: seq<Polygon>)
    requires m.Valid() && AllTraced(m, polys)
    ensures PolyBag(m, polys) == multiset{} <==> polys == []
  {
    hide Traced;
    if polys != [] {
      var n := |polys| - 1;
      TracedNonEmpty(m, polys[n]);
      assert EdgesOf(m, polys[n])[0] in multiset(EdgesOf(m, polys[n]));
      assert EdgesOf(m, polys[n])[0] in PolyBag(m, polys);
    }
  }

  /** Without a polygon there is nothing but wall. */
  lemma NoPolygons(m: Map, labels: map<Cell, Label>, seeds: seq<Cell>, partPolys: seq<seq<Polygon>>, p: nat)
    requires m.Valid() && IsPartition(m, labels, seeds) && |partPolys| == |seeds| && p < |seeds|
    requires ExactCoverage(m, labels, partPolys)
    ensures partPolys[p] == [] <==> AllFilled(m)
  {
    hide IsPartition, AllTraced, PolyBag, PartBoundary, AllFilled;
    BagEmpty(m, partPolys[p]);
    PartIsFull(m, labels, seeds, p);
    var s := PartBoundary(m, labels, p);
    assert multiset(s) == multiset{} <==> s == {} by {
      assert forall e :: e in multiset(s) <==> e in s;
    }
  }

  lemma LinkedOrdered(polys: seq<Polygon>, w: Wrapping, nodes: seq<Polynode>, f: Forest, parent: seq<nat>)
    requires Linked(polys, w, nodes, f, parent)
    ensures Tree(f, parent) && Ordered(f) && 0 < |f| && multiset(Polys(f)) == multiset(polys)
  {
    hide Ordered, ParentsOk, NodeOk, HasLink, AllShortest;
  }

  /** The outline walks around a tree with shortest links between the polygons of the part. */
  ghost predicate WalksTree(m: Map, polys: seq<Polygon>, f: Forest, parent: seq<nat>, o: Outline)
    requires m.Valid()
  {
    && NonEmpty(polys) && Tree(f, parent) && Ordered(f) && multiset(Polys(f)) == multiset(polys)
    && WaysOk(m, polys, f)
    && f[0].poly != [] && o.entries == EntriesOf(Walk(f, 0, f[0].poly[0].x, f[0].poly[0].y, 0))
  }

  /** One turn of the loop over the parts. */
  method LinkOne(m: Map, polys: seq<Polygon>, sqrt: nat -> real, ghost edges: set<Edge>)
    returns (o: Option<Outline>, ghost f: Forest, ghost parent: seq<nat>)
    requires m.Valid() && IsSqrt(sqrt) && AllTraced(m, polys) && PolyBag(m, polys) == multiset(edges)
    ensures o.Some? <==> Linkable(polys)
    ensures o.Some? ==> (o.value.extrawrap <==> OnlyInner(polys))
    ensures o.Some? ==> multiset(SideEdges(m, o.value.entries)) == multiset(edges)
    ensures o.Some? ==> WalksTree(m, polys, f, parent, o.value)
  {
    hide AllTraced, PolyBag, SideEdges, NonEmpty, CanLink, WaysOk, Turning, Linked, InReach, FarOf, IsSqrt, Walk,
         Ordered, EntriesOf;
    TracedAllNonEmpty(m, polys);
    FarEnough(m, polys);
    var entries, extrawrap;
    ghost var w, nodes;
    entries, extrawrap, w, nodes, f, parent := PolyLinkPart(m, polys, sqrt, FarOf(polys));
    if entries == None {
      o := None;
      return;
    }
    LinkedOrdered(polys, w, nodes, f, parent);
    OutlineTakes(m, polys, w, nodes, f, parent, edges);
    o := Some(Outline(entries.value, extrawrap));
  }

  /** makepolys, without the cutting open that extrawrap asks for.  None stands for a failure of poly_link. */
  method MakePolys(m: Map, sqrt: nat -> real)
    returns (outlines: Option<seq<Outline>>, ghost labels: map<Cell, Label>, ghost seeds: seq<Cell>,
             ghost partPolys: seq<seq<Polygon>>, ghost trees: seq<(Forest, seq<nat>)>)
    requires m.Valid() && IsSqrt(sqrt)
    ensures IsPartition(m, labels, seeds) && |partPolys| == |seeds| && ExactCoverage(m, labels, partPolys)
    // The polygons of a part lie where the part lies when it is unrolled.
    ensures AllInPlace(m, seeds, partPolys)
    // Every part gets an outline, which takes each of its boundary edges once and no other edge.
    ensures outlines.Some? ==> |outlines.value| == |seeds|
    ensures outlines.Some? ==> forall p :: 0 <= p < |seeds| ==> OutlineOk(m, labels, p, outlines.value[p])
    // It leads around a tree of the polygons of the part, with shortest links.
    ensures outlines.Some? ==> |trees| == |seeds| && forall p :: 0 <= p < |seeds| ==>
              WalksTree(m, partPolys[p], trees[p].0, trees[p].1, outlines.value[p])
    // It is to be cut open if the part has inner polygons only.
    ensures outlines.Some? ==>
              forall p :: 0 <= p < |seeds| ==> (outlines.value[p].extrawrap <==> OnlyInner(partPolys[p]))
    // It fails for parts that poly_link cannot handle; one of these is a part that fills the whole map.
    ensures outlines.Some? <==> forall p :: 0 <= p < |partPolys| ==> Linkable(partPolys[p])
    ensures forall p :: 0 <= p < |partPolys| ==> (partPolys[p] == [] <==> AllFilled(m))
  {
    hide IsPartition, AllTraced, PolyBag, PartBoundary, Linkable, IsSqrt, SideEdges, AllFilled, WallParts.Labels,
         AllInPlace, OnlyInner, WalksTree;
    var parts, partcount;
    parts, partcount, seeds := PolyPartition(m);
    labels := WallParts.Labels(m, parts);
    var polys := PolyFindEdges(m, parts, partcount, seeds);
    partPolys := polys;
    forall p | 0 <= p < |partPolys|
      ensures partPolys[p] == [] <==> AllFilled(m)
    {
      NoPolygons(m, labels, seeds, partPolys, p);
    }
    var list := [];
    trees := [];
    var p := 0;
    while p < |polys|
      invariant 0 <= p == |list| <= |polys|
      invariant forall k :: 0 <= k < p ==> Linkable(polys[k]) && OutlineOk(m, labels, k, list[k])
      invariant forall k :: 0 <= k < p ==> (list[k].extrawrap <==> OnlyInner(polys[k]))
      invariant |trees| == p && forall k :: 0 <= k < p ==> WalksTree(m, polys[k], trees[k].0, trees[k].1, list[k])
    {
      var o;
      ghost var f, parent;
      o, f, parent := LinkOne(m, polys[p], sqrt, PartBoundary(m, labels, p));
      if o == None {
        outlines := None;
        return;
      }
      list, trees := list + [o.value], trees + [(f, parent)];
      p := p + 1;
    }
    outlines := Some(list);
  }
}
