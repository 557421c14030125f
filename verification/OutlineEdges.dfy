/** The outline of a wall part, as an outline on the torus: apart from the links, it takes exactly the
    boundary edges of the part. */
module OutlineEdges {
  import opened Basics
  import opened BlockMap
  import opened TracePoly
  import opened BoundaryLoops
  import opened NearestPair
  import opened LinkTree
  import opened Polynodes
  import opened PolyLink
  import opened LinkPart

  // ---------------------------------------------------------------- places of the walk

  lemma WrapMoves(m: Map, x: int, y: int, x': int, y': int, v: Vec)
    requires m.Valid() && m.Wrap(x, y) == m.Wrap(x', y')
    ensures m.Wrap(x + v.dx, y + v.dy) == m.Wrap(x' + v.dx, y' + v.dy)
  {
    hide Mod;
    ModAdd(x, v.dx, m.width);
    ModAdd(x', v.dx, m.width);
    ModAdd(y, v.dy, m.height);
    ModAdd(y', v.dy, m.height);
  }

  /** (x, y) is corner i of the polygon, on the torus. */
  predicate IsCorner(m: Map, poly: Polygon, i: nat, x: int, y: int)
    requires m.Valid() && i < |poly|
  {
    m.Wrap(x, y) == m.Wrap(poly[i].x, poly[i].y)
  }

  /** On the torus every edge of the polygon leads to the next corner. */
  ghost predicate RingOk(m: Map, poly: Polygon)
    requires m.Valid()
  {
    forall i :: 0 <= i < |poly| ==>
      IsCorner(m, poly, NextIndex(i, |poly|), poly[i].x + poly[i].v.dx, poly[i].y + poly[i].v.dy)
  }

  lemma TracedRing(m: Map, poly: Polygon)
    requires m.Valid() && Traced(m, poly)
    ensures RingOk(m, poly)
  {
    hide Cycle, Map.Wrap, Dirs, DirOf;
    forall i | 0 <= i < |poly|
      ensures IsCorner(m, poly, NextIndex(i, |poly|), poly[i].x + poly[i].v.dx, poly[i].y + poly[i].v.dy)
    {
      if i + 1 < |poly| {
        assert StepsOn(poly, i);
      }
    }
  }

  ghost predicate LinkLeads(m: Map, f: Forest, a: nat, l: Link)
    requires m.Valid()
  {
    && a < l.target < |f| && l.start < |f[a].poly| && l.index < |f[l.target].poly|
    && var p := f[a].poly[l.start]; IsCorner(m, f[l.target].poly, l.index, p.x + l.v.dx, p.y + l.v.dy)
  }

  /** Polygons are rings, and links lead from corner to corner. */
  ghost predicate OnTorus(m: Map, f: Forest)
    requires m.Valid()
  {
    && Ordered(f)
    && (forall a :: 0 <= a < |f| ==> RingOk(m, f[a].poly))
    && (forall a, l :: 0 <= a < |f| && l in f[a].links ==> LinkLeads(m, f, a, l))
  }

  /** A step along a polygon edge is at that edge of the torus. */
  predicate AtEdge(m: Map, f: Forest, v: Visit)
    requires m.Valid()
  {
    v.tag.Side? ==> StepOk(f, v.tag) && EdgeOf(m, Point(v.x, v.y, v.v)) == EdgeOf(m, f[v.tag.a].poly[v.tag.i])
  }

  ghost predicate AllAtEdges(m: Map, f: Forest, s: seq<Visit>)
    requires m.Valid()
  {
    forall k :: 0 <= k < |s| ==> AtEdge(m, f, s[k])
  }

  lemma AtEdgesAppend(m: Map, f: Forest, s: seq<Visit>, s': seq<Visit>)
    requires m.Valid() && AllAtEdges(m, f, s) && AllAtEdges(m, f, s')
    ensures AllAtEdges(m, f, s + s')
  {
    hide AtEdge;
  }

  lemma AtEdgesOne(m: Map, f: Forest, v: Visit)
    requires m.Valid() && AtEdge(m, f, v)
    ensures AllAtEdges(m, f, [v])
  {
  }

  lemma {:induction false} DetourAtEdges(m: Map, f: Forest, a: nat, l: Link, x: int, y: int)
    requires m.Valid() && OnTorus(m, f) && a < |f| && LinkLeads(m, f, a, l) && IsCorner(m, f[a].poly, l.start, x, y)
    ensures AllAtEdges(m, f, Detour(f, a, l, x, y))
    decreases |f| - a, 0, 0, 0
  {
    hide Ordered, AllAtEdges, Walk, Map.Wrap;
    var p, c := f[a].poly[l.start], l.target;
    var out, back := Visit(Out(c), x, y, l.v), Visit(Back(c), x + l.v.dx, y + l.v.dy, Vec(-l.v.dx, -l.v.dy));
    WrapMoves(m, x, y, p.x, p.y, l.v);
    WalkAtEdges(m, f, c, x + l.v.dx, y + l.v.dy, l.index);
    AtEdgesOne(m, f, out);
    AtEdgesOne(m, f, back);
    var walk := Walk(f, c, x + l.v.dx, y + l.v.dy, l.index);
    AtEdgesAppend(m, f, [out], walk);
    AtEdgesAppend(m, f, [out] + walk, [back]);
  }

  lemma {:induction false} DetoursAtEdges(m: Map, f: Forest, a: nat, links: seq<Link>, i: nat, x: int, y: int)
    requires m.Valid() && OnTorus(m, f) && a < |f| && i < |f[a].poly| && IsCorner(m, f[a].poly, i, x, y)
    requires LinksLater(f, a, links) && forall l :: l in links ==> LinkLeads(m, f, a, l) && l.start == i
    ensures AllAtEdges(m, f, Detours(f, a, links, x, y))
    decreases |f| - a, 0, |links|, 1
  {
    hide OnTorus, Ordered, AtEdge, Detour, LinkLeads, IsCorner;
    TorusOrdered(m, f);
    if links != [] {
      assert links[0] in links;
      DetourAtEdges(m, f, a, links[0], x, y);
      DetoursAtEdges(m, f, a, links[1..], i, x, y);
      AtEdgesAppend(m, f, Detour(f, a, links[0], x, y), Detours(f, a, links[1..], x, y));
    }
  }

  lemma {:induction false} WalkFromAtEdges(m: Map, f: Forest, a: nat, x: int, y: int, i: nat, n: nat)
    requires m.Valid() && OnTorus(m, f) && a < |f| && i < |f[a].poly| && IsCorner(m, f[a].poly, i, x, y)
    ensures AllAtEdges(m, f, WalkFrom(f, a, x, y, i, n))
    decreases |f| - a, 1, n, 0
  {
    hide Ordered, AtEdge, Detours, LinkLeads, Map.Wrap, IsCorner, RingOk;
    if n != 0 {
      var poly := f[a].poly;
      var p, next := poly[i], NextIndex(i, |poly|);
      LinksAtLater(f, a, i);
      forall l | l in At(f[a].links, i)
        ensures LinkLeads(m, f, a, l) && l.start == i
      {
        AtOk(f[a].links, i, l);
      }
      DetoursAtEdges(m, f, a, At(f[a].links, i), i, x, y);
      var side := Visit(Side(a, i), x, y, p.v);
      SideAtEdge(m, f, a, i, x, y);
      NextCorner(m, poly, i, x, y);
      WalkFromAtEdges(m, f, a, x + p.v.dx, y + p.v.dy, next, n - 1);
      AtEdgesOne(m, f, side);
      var detours := Detours(f, a, At(f[a].links, i), x, y);
      AtEdgesAppend(m, f, detours, [side]);
      AtEdgesAppend(m, f, detours + [side], WalkFrom(f, a, x + p.v.dx, y + p.v.dy, next, n - 1));
    }
  }

  lemma SideAtEdge(m: Map, f: Forest, a: nat, i: nat, x: int, y: int)
    requires m.Valid() && a < |f| && i < |f[a].poly| && IsCorner(m, f[a].poly, i, x, y)
    ensures AtEdge(m, f, Visit(Side(a, i), x, y, f[a].poly[i].v))
  {
  }

  lemma NextCorner(m: Map, poly: Polygon, i: nat, x: int, y: int)
    requires m.Valid() && RingOk(m, poly) && i < |poly| && IsCorner(m, poly, i, x, y)
    ensures IsCorner(m, poly, NextIndex(i, |poly|), x + poly[i].v.dx, y + poly[i].v.dy)
  {
    hide Map.Wrap;
    assert IsCorner(m, poly, NextIndex(i, |poly|), poly[i].x + poly[i].v.dx, poly[i].y + poly[i].v.dy);
    WrapMoves(m, x, y, poly[i].x, poly[i].y, poly[i].v);
  }

  /** All steps of the walk along polygon edges are at these edges of the torus. */
  lemma {:induction false} WalkAtEdges(m: Map, f: Forest, a: nat, x: int, y: int, start: nat)
    requires m.Valid() && OnTorus(m, f) && a < |f| && start < |f[a].poly| && IsCorner(m, f[a].poly, start, x, y)
    ensures AllAtEdges(m, f, Walk(f, a, x, y, start))
    decreases |f| - a, 2, 0, 0
  {
    hide OnTorus, AtEdge, WalkFrom, IsCorner;
    assert Ordered(f) by { TorusOrdered(m, f); }
    WalkFromAtEdges(m, f, a, x, y, start, |f[a].poly|);
  }

  lemma TorusOrdered(m: Map, f: Forest)
    requires m.Valid() && OnTorus(m, f)
    ensures Ordered(f)
  {
  }

  // ---------------------------------------------------------------- the edges of the outline

  /** The edges of the torus that the entries of an outline take, without the links. */
  function SideEdges(m: Map, entries: seq<Entry>): seq<Edge>
    requires m.Valid()
  {
    if entries == [] then [] else
      (if entries[0].link then [] else [EdgeOf(m, Point(entries[0].x, entries[0].y, entries[0].v))])
      + SideEdges(m, entries[1..])
  }

  function EntryEdge(m: Map, e: Entry): Edge
    requires m.Valid()
  {
    EdgeOf(m, Point(e.x, e.y, e.v))
  }

  /** No edge is taken twice. */
  ghost predicate TakenOnce(m: Map, entries: seq<Entry>)
    requires m.Valid()
  {
    forall j, k :: 0 <= j < k < |entries| && !entries[j].link && !entries[k].link ==>
      EntryEdge(m, entries[j]) != EntryEdge(m, entries[k])
  }

  ghost predicate Takes(m: Map, entries: seq<Entry>, e: Edge)
    requires m.Valid()
  {
    exists k :: 0 <= k < |entries| && !entries[k].link && EntryEdge(m, entries[k]) == e
  }

  lemma {:induction false} SideEdgesAre(m: Map, entries: seq<Entry>)
    requires m.Valid()
    ensures forall e :: e in SideEdges(m, entries) <==> Takes(m, entries, e)
  {
    hide EdgeOf;
    if entries != [] {
      SideEdgesAre(m, entries[1..]);
      forall e
        ensures e in SideEdges(m, entries) <==> Takes(m, entries, e)
      {
        TakesCons(m, entries, e);
      }
    }
  }

  lemma TakesCons(m: Map, entries: seq<Entry>, e: Edge)
    requires m.Valid() && entries != []
    ensures Takes(m, entries, e) <==> (!entries[0].link && EntryEdge(m, entries[0]) == e) || Takes(m, entries[1..], e)
  {
    hide EntryEdge;
    if Takes(m, entries, e) {
      var k :| 0 <= k < |entries| && !entries[k].link && EntryEdge(m, entries[k]) == e;
      if 0 < k {
        assert entries[1..][k - 1] == entries[k];
      }
    }
    if Takes(m, entries[1..], e) {
      var k :| 0 <= k < |entries[1..]| && !entries[1..][k].link && EntryEdge(m, entries[1..][k]) == e;
      assert entries[k + 1] == entries[1..][k];
    }
  }

  lemma {:induction false} SideEdgesDistinct(m: Map, entries: seq<Entry>)
    requires m.Valid() && TakenOnce(m, entries)
    ensures Distinct(SideEdges(m, entries))
  {
    hide EdgeOf;
    if entries != [] {
      forall j, k | 0 <= j < k < |entries[1..]| && !entries[1..][j].link && !entries[1..][k].link
        ensures EntryEdge(m, entries[1..][j]) != EntryEdge(m, entries[1..][k])
      {
        assert entries[1..][j] == entries[j + 1] && entries[1..][k] == entries[k + 1];
      }
      SideEdgesDistinct(m, entries[1..]);
      SideEdgesAre(m, entries[1..]);
      forall k | 0 <= k < |entries[1..]| && !entries[0].link && !entries[1..][k].link
        ensures EntryEdge(m, entries[1..][k]) != EntryEdge(m, entries[0])
      {
        assert entries[1..][k] == entries[k + 1];
      }
      if !entries[0].link {
        DistinctCons(EntryEdge(m, entries[0]), SideEdges(m, entries[1..]));
      }
    }
  }

  lemma DistinctCons(e: Edge, es: seq<Edge>)
    requires Distinct(es) && e !in es
    ensures Distinct([e] + es)
  {
  }

  // ---------------------------------------------------------------- the edges of the polygons

  lemma BagSnoc(m: Map, init: seq<Polygon>, p: Polygon)
    requires m.Valid()
    ensures PolyBag(m, init + [p]) == PolyBag(m, init) + multiset(EdgesOf(m, p))
  {
    assert (init + [p])[..|init|] == init;
  }

  lemma {:induction false} BagWithout(m: Map, polys: seq<Polygon>, k: nat)
    requires m.Valid() && k < |polys|
    ensures PolyBag(m, polys) == PolyBag(m, polys[..k] + polys[k + 1..]) + multiset(EdgesOf(m, polys[k]))
    decreases |polys|
  {
    hide PolyBag, EdgesOf;
    var n := |polys| - 1;
    assert polys == polys[..n] + [polys[n]];
    BagSnoc(m, polys[..n], polys[n]);
    if k < n {
      BagWithout(m, polys[..n], k);
      assert polys[..k] + polys[k + 1..] == (polys[..n][..k] + polys[..n][k + 1..]) + [polys[n]];
      BagSnoc(m, polys[..n][..k] + polys[..n][k + 1..], polys[n]);
    } else {
      assert polys[..k] + polys[k + 1..] == polys[..n];
    }
  }

  /** The order of the polygons does not matter. */
  lemma {:induction false} BagPermuted(m: Map, a: seq<Polygon>, b: seq<Polygon>)
    requires m.Valid() && multiset(a) == multiset(b)
    ensures PolyBag(m, a) == PolyBag(m, b)
    decreases |a|
  {
    hide EdgesOf, PolyBag;
    if a == [] {
      assert |multiset(b)| == 0;
      assert b == [];
    } else {
      assert a[0] in multiset(b);
      var k :| 0 <= k < |b| && b[k] == a[0];
      BagWithout(m, a, 0);
      BagWithout(m, b, k);
      RemoveAt(a, 0);
      RemoveAt(b, k);
      Cancel(multiset(a[..0] + a[1..]), multiset(b[..k] + b[k + 1..]), a[0]);
      BagPermuted(m, a[..0] + a[1..], b[..k] + b[k + 1..]);
    }
  }

  /** An edge is in the bag as the edge of some polygon. */
  lemma {:induction false} BagMembers(m: Map, polys: seq<Polygon>, e: Edge)
    requires m.Valid()
    ensures e in PolyBag(m, polys) <==> InPolys(m, polys, e)
  {
    hide EdgeOf;
    if polys != [] {
      var n := |polys| - 1;
      BagMembers(m, polys[..n], e);
      if InPolys(m, polys[..n], e) {
        var k: nat, i: nat :| InPolygon(m, polys[..n], k, i, e);
        assert InPolygon(m, polys, k, i, e);
      }
      if e in multiset(EdgesOf(m, polys[n])) {
        var i :| 0 <= i < |polys[n]| && EdgesOf(m, polys[n])[i] == e;
        assert InPolygon(m, polys, n, i, e);
      }
      if InPolys(m, polys, e) {
        var k: nat, i: nat :| InPolygon(m, polys, k, i, e);
        if k < n {
          assert InPolygon(m, polys[..n], k, i, e);
        } else {
          assert EdgesOf(m, polys[n])[i] == e;
        }
      }
    }
  }

  predicate InPolygon(m: Map, polys: seq<Polygon>, k: nat, i: nat, e: Edge)
    requires m.Valid()
  {
    k < |polys| && i < |polys[k]| && EdgeOf(m, polys[k][i]) == e
  }

  ghost predicate InPolys(m: Map, polys: seq<Polygon>, e: Edge)
    requires m.Valid()
  {
    exists k: nat, i: nat :: InPolygon(m, polys, k, i, e)
  }

  /** If the bag has no edge twice, an edge is in one place only. */
  lemma OnePlace(m: Map, polys: seq<Polygon>, s: set<Edge>, k: nat, i: nat, k': nat, i': nat, e: Edge)
    requires m.Valid() && PolyBag(m, polys) == multiset(s)
    requires InPolygon(m, polys, k, i, e) && InPolygon(m, polys, k', i', e)
    ensures k == k' && i == i'
  {
    hide EdgeOf, PolyBag;
    BagWithout(m, polys, k);
    var es := EdgesOf(m, polys[k]);
    assert es[i] == e;
    assert multiset(s)[e] <= 1;
    if k != k' {
      var rest, j := polys[..k] + polys[k + 1..], if k' < k then k' else k' - 1;
      assert rest[j] == polys[k'];
      assert InPolygon(m, rest, j, i', e);
      BagMembers(m, rest, e);
      assert false;
    }
    if i != i' {
      assert es[i'] == e;
      TwiceInBag(es, i, i');
      assert false;
    }
  }

  lemma TwiceInBag(es: seq<Edge>, i: nat, j: nat)
    requires i < |es| && j < |es| && i != j && es[i] == es[j]
    ensures multiset(es)[es[i]] >= 2
  {
    RemoveAt(es, i);
    var rest := es[..i] + es[i + 1..];
    assert rest[if j < i then j else j - 1] == es[i];
    assert es[i] in multiset(rest);
  }

  // ---------------------------------------------------------------- both together

  /** A step that occurs twice has been counted twice. */
  lemma {:induction false} OccAt(s: seq<Visit>, k: nat)
    requires k < |s|
    ensures Occ(s, s[k].tag) >= 1
    decreases k
  {
    if 0 < k {
      OccAt(s[1..], k - 1);
    }
  }

  lemma {:induction false} OccTwice(s: seq<Visit>, j: nat, k: nat)
    requires j < k < |s| && s[j].tag == s[k].tag
    ensures Occ(s, s[j].tag) >= 2
    decreases j
  {
    if 0 < j {
      OccTwice(s[1..], j - 1, k - 1);
    } else {
      OccAt(s[1..], k - 1);
    }
  }

  lemma {:induction false} OccFound(s: seq<Visit>, t: Tag) returns (k: nat)
    requires Occ(s, t) >= 1
    ensures k < |s| && s[k].tag == t
  {
    if s[0].tag == t {
      k := 0;
    } else {
      var k' := OccFound(s[1..], t);
      k := k' + 1;
    }
  }

  ghost predicate EachOnce(f: Forest, s: seq<Visit>) {
    forall t :: Occ(s, t) == if StepOk(f, t) then 1 else 0
  }

  /** A walk that makes each step once, at the edges of the torus, takes each edge of the polygons once. */
  lemma WalkTakes(m: Map, f: Forest, s: seq<Visit>, edges: set<Edge>)
    requires m.Valid() && AllAtEdges(m, f, s) && EachOnce(f, s) && PolyBag(m, Polys(f)) == multiset(edges)
    ensures multiset(SideEdges(m, EntriesOf(s))) == multiset(edges)
  {
    hide EdgeOf, PolyBag, SideEdges, EachOnce, AllAtEdges;
    var es := EntriesOf(s);
    forall j, k | 0 <= j < k < |es| && !es[j].link && !es[k].link
      ensures EntryEdge(m, es[j]) != EntryEdge(m, es[k])
    {
      EntryPlace(m, f, s, j);
      EntryPlace(m, f, s, k);
      if EntryEdge(m, es[j]) == EntryEdge(m, es[k]) {
        OnePlace(m, Polys(f), edges, s[j].tag.a, s[j].tag.i, s[k].tag.a, s[k].tag.i, EntryEdge(m, es[j]));
        NotTwice(f, s, j, k);
        assert false;
      }
    }
    SideEdgesDistinct(m, es);
    BagOfDistinct(SideEdges(m, es));
    SideEdgesAre(m, es);
    forall e
      ensures e in SetOf(SideEdges(m, es)) <==> e in edges
    {
      TakenIsThere(m, f, s, edges, e);
    }
    assert SetOf(SideEdges(m, es)) == edges;
  }

  lemma NotTwice(f: Forest, s: seq<Visit>, j: nat, k: nat)
    requires EachOnce(f, s) && j < k < |s|
    ensures s[j].tag != s[k].tag
  {
    if s[j].tag == s[k].tag {
      OccTwice(s, j, k);
    }
  }

  lemma EntryPlace(m: Map, f: Forest, s: seq<Visit>, k: nat)
    requires m.Valid() && AllAtEdges(m, f, s) && k < |s| && !EntriesOf(s)[k].link
    ensures s[k].tag.Side? && InPolygon(m, Polys(f), s[k].tag.a, s[k].tag.i, EntryEdge(m, EntriesOf(s)[k]))
  {
    hide EdgeOf;
    assert AtEdge(m, f, s[k]);
  }

  lemma TakenIsThere(m: Map, f: Forest, s: seq<Visit>, edges: set<Edge>, e: Edge)
    requires m.Valid() && AllAtEdges(m, f, s) && EachOnce(f, s) && PolyBag(m, Polys(f)) == multiset(edges)
    ensures Takes(m, EntriesOf(s), e) <==> e in edges
  {
    hide EdgeOf, PolyBag, AllAtEdges, AtEdge;
    BagMembers(m, Polys(f), e);
    if Takes(m, EntriesOf(s), e) {
      var k :| 0 <= k < |EntriesOf(s)| && !EntriesOf(s)[k].link && EntryEdge(m, EntriesOf(s)[k]) == e;
      EntryPlace(m, f, s, k);
      assert e in multiset(edges);
    }
    if e in edges {
      assert e in multiset(edges);
      var a: nat, i: nat :| InPolygon(m, Polys(f), a, i, e);
      var k := OccFound(s, Side(a, i));
      assert !EntriesOf(s)[k].link;
      EntryPlace(m, f, s, k);
    }
  }

  /** The links that are shortest ones lead from corner to corner. */
  lemma LinkedOnTorus(m: Map, polys: seq<Polygon>, w: Wrapping, nodes: seq<Polynode>, f: Forest, parent: seq<nat>)
    requires m.Valid() && AllTraced(m, polys) && Linked(polys, w, nodes, f, parent)
    requires w.width == m.width && w.height == m.height
    ensures OnTorus(m, f)
  {
    hide Tree, Ordered, Traced, RingOk, LinkLeads, ShortestAcross;
    forall a | 0 <= a < |f|
      ensures RingOk(m, f[a].poly)
    {
      PolyOfForest(polys, f, a);
      TracedRing(m, f[a].poly);
    }
    forall a, l | 0 <= a < |f| && l in f[a].links
      ensures LinkLeads(m, f, a, l)
    {
      var k :| 0 <= k < |f[a].links| && f[a].links[k] == l;
      assert ShortestAcross(w, nodes, f, a, f[a].links[k], []);
      ShortestLeads(m, w, nodes, f, a, l);
    }
  }

  lemma PolyOfForest(polys: seq<Polygon>, f: Forest, a: nat)
    requires multiset(Polys(f)) == multiset(polys) && a < |f|
    ensures exists k :: 0 <= k < |polys| && polys[k] == f[a].poly
  {
    assert Polys(f)[a] in multiset(polys);
  }

  lemma ShortestLeads(m: Map, w: Wrapping, nodes: seq<Polynode>, f: Forest, a: nat, l: Link)
    requires m.Valid() && w.width == m.width && w.height == m.height && |nodes| == |f| && a < |f|
    requires forall b :: 0 <= b < |f| ==> f[b].poly == nodes[b].poly
    requires ShortestAcross(w, nodes, f, a, l, [])
    ensures LinkLeads(m, f, a, l)
  {
    hide Mod, FarApart, Dist, Sq;
    var p, q := f[a].poly[l.start], f[l.target].poly[l.index];
    ModAdd(l.v.dx, p.x, m.width);
    ModAdd(q.x - p.x, p.x, m.width);
    ModAdd(l.v.dy, p.y, m.height);
    ModAdd(q.y - p.y, p.y, m.height);
  }

  /** The outline of the linked polygons takes exactly their edges on the torus, each once. */
  lemma OutlineTakes(m: Map, polys: seq<Polygon>, w: Wrapping, nodes: seq<Polynode>, f: Forest, parent: seq<nat>,
                     edges: set<Edge>)
    requires m.Valid() && AllTraced(m, polys) && Linked(polys, w, nodes, f, parent)
    requires w.width == m.width && w.height == m.height && PolyBag(m, polys) == multiset(edges)
    requires Ordered(f) && 0 < |f| && f[0].poly != []
    ensures multiset(SideEdges(m, EntriesOf(Walk(f, 0, f[0].poly[0].x, f[0].poly[0].y, 0)))) == multiset(edges)
  {
    hide Tree, Ordered, AllTraced, AllShortest, PolyBag, SideEdges, Walk, OnTorus, EntriesOf;
    var walk := Walk(f, 0, f[0].poly[0].x, f[0].poly[0].y, 0);
    LinkedOnTorus(m, polys, w, nodes, f, parent);
    WalkAtEdges(m, f, 0, f[0].poly[0].x, f[0].poly[0].y, 0);
    BagPermuted(m, Polys(f), polys);
    forall t
      ensures Occ(walk, t) == if StepOk(f, t) then 1 else 0
    {
      TreeParents(f, parent);
      EveryStepOnce(f, parent, f[0].poly[0].x, f[0].poly[0].y, 0, t);
    }
    WalkTakes(m, f, walk, edges);
  }
}
