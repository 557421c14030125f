/** The linking part of poly_link in mapconvert.py: join the polygons of a wall part by shortest links,
    one polygon at a time, and walk around the result. */
module PolyLink {
  import opened Basics
  import opened BlockMap
  import opened TracePoly
  import opened NearestPair
  import opened LinkTree
  import opened Polynodes
  import opened TraverseTree

  /** A wrapping function and the map size whose multiples it may add. */
  datatype Wrapping = Wrapping(wrap: Vec -> Vec, width: nat, height: nat) {
    ghost predicate Ok() { 0 < width && 0 < height && LeastWrap(wrap) && Faithful(wrap, width, height) }

    /** v leads from a to b, up to multiples of the map size, in the way that the function wraps. */
    predicate Leads(a: Point, b: Point, v: Vec) {
      0 < width && 0 < height && SameSpot(v, Minus(b, a), width, height) && OffsetBy(wrap, a, b, v)
    }
  }

  /** No two points of p and q are closer than d. */
  ghost predicate FarApart(w: Wrapping, p: Polygon, q: Polygon, d: int) {
    forall i, j :: 0 <= i < |p| && 0 <= j < |q| ==> Dist(w.wrap, p[i], q[j]) >= d
  }

  /** The reach r of polygon q is the closest pair of points between the first m nodes and q. */
  ghost predicate BestReach(w: Wrapping, nodes: seq<Polynode>, m: nat, q: Polygon, r: Reach, far: int)
    requires m <= |nodes|
  {
    && (forall a :: 0 <= a < m ==> FarApart(w, nodes[a].poly, q, r.d))
    && (m == 0 ==> r.d == far)
    && (0 < m ==> exists a :: 0 <= a < m && Reaches(w, nodes, a, q, r))
  }

  ghost predicate Reaches(w: Wrapping, nodes: seq<Polynode>, a: nat, q: Polygon, r: Reach)
    requires a < |nodes|
  {
    var p := nodes[a].poly;
    && r.from == nodes[a] && r.k < |p| && r.l < |q|
    && r.d == Dist(w.wrap, p[r.k], q[r.l]) == Sq(Vec(r.dx, r.dy)) && w.Leads(p[r.k], q[r.l], Vec(r.dx, r.dy))
  }

  /** A result of findmin gives the reach over one more node. */
  function NewReach(r: Reach, h: Option<Hit>, from: Polynode): Reach {
    match h
    case None => r
    case Some(h) => Reach(h.d, h.k, h.l, h.dx, h.dy, from)
  }

  lemma ReachMore(w: Wrapping, nodes: seq<Polynode>, m: nat, q: Polygon, r: Reach, far: int, h: Option<Hit>)
    requires m < |nodes| && BestReach(w, nodes, m, q, r, far) && Closest(w.wrap, nodes[m].poly, q, r.d, h)
    requires h.Some? ==> w.Leads(nodes[m].poly[h.value.k], q[h.value.l], Vec(h.value.dx, h.value.dy))
    requires nodes[m].poly != [] && q != [] && (m == 0 ==> Dist(w.wrap, nodes[m].poly[0], q[0]) < far)
    ensures BestReach(w, nodes, m + 1, q, NewReach(r, h, nodes[m]), far)
  {
    hide Dist, Sq;
    var r' := NewReach(r, h, nodes[m]);
    forall a | 0 <= a < m + 1
      ensures FarApart(w, nodes[a].poly, q, r'.d)
    {
      if a < m {
        assert FarApart(w, nodes[a].poly, q, r.d);
      }
    }
    if h.Some? {
      assert Reaches(w, nodes, m, q, r');
    } else if 0 < m {
      var a :| 0 <= a < m && Reaches(w, nodes, a, q, r);
      assert Reaches(w, nodes, a, q, r');
    }
  }

  /** Polygons that findmin can handle, with all distances below far. */
  ghost predicate GoodPolys(w: Wrapping, all: set<Polynode>, far: int) {
    && 0 <= far
    && (forall q :: q in all ==> q.poly != [] && KingSteps(q.poly))
    && (forall p, q :: p in all && q in all ==> Close(w, p.poly, q.poly, far))
  }

  ghost predicate Close(w: Wrapping, p: Polygon, q: Polygon, far: int) {
    forall i, j :: 0 <= i < |p| && 0 <= j < |q| ==> Dist(w.wrap, p[i], q[j]) < far
  }

  ghost predicate Known(w: Wrapping, nodes: seq<Polynode>, m: nat, q: Polygon, r: Reach, far: int)
    requires m <= |nodes|
  {
    BestReach(w, nodes, m, q, r, far) && 0 <= r.d
  }

  /** The remaining nodes know their reach over the first m nodes. */
  ghost predicate Reached(w: Wrapping, nodes: seq<Polynode>, m: nat, totlist: seq<Polynode>, far: int)
    requires m <= |nodes|
    reads totlist
  {
    forall i :: 0 <= i < |totlist| ==> Known(w, nodes, m, totlist[i].poly, totlist[i].dist, far)
  }

  lemma DistNonNegative(w: Wrapping, p: Polygon, q: Polygon, d: int, h: Option<Hit>)
    requires 0 <= d && Closest(w.wrap, p, q, d, h)
    ensures h.Some? ==> 0 <= h.value.d
  {
    if h.Some? {
      SqNonNegative(Vec(h.value.dx, h.value.dy));
    }
  }

  /** The result of findmin gives a node's reach over one more node. */
  lemma ReachFound(w: Wrapping, nodes: seq<Polynode>, m: nat, q: Polygon, r: Reach, far: int, h: Option<Hit>)
    requires m < |nodes| && w.Ok() && Known(w, nodes, m, q, r, far) && Close(w, nodes[m].poly, q, far)
    requires nodes[m].poly != [] && q != []
    requires h == Exhaustive(w.wrap, nodes[m].poly, q, r.d) && Closest(w.wrap, nodes[m].poly, q, r.d, h)
    ensures Known(w, nodes, m + 1, q, NewReach(r, h, nodes[m]), far)
  {
    hide LeastWrap, Faithful, Dist, SameSpot, Exhaustive, BestReach, Sq;
    LeastIsEven(w.wrap);
    OffsetLeads(w.wrap, nodes[m].poly, q, r.d, w.width, w.height);
    ReachMore(w, nodes, m, q, r, far, h);
    DistNonNegative(w, nodes[m].poly, q, r.d, h);
  }

  /** The first loop: measure the distance of every remaining node to the node linked last. */
  method UpdateDists(last: Polynode, totlist: seq<Polynode>, w: Wrapping, sqrt: nat -> real, far: int,
                     ghost nodes: seq<Polynode>, ghost all: set<Polynode>)
    requires 0 < |nodes| && last == nodes[|nodes| - 1] && Distinct(totlist)
    requires w.Ok() && IsSqrt(sqrt) && GoodPolys(w, all, far)
    requires last in all && forall q :: q in totlist ==> q in all
    requires Reached(w, nodes, |nodes| - 1, totlist, far)
    modifies totlist
    ensures Reached(w, nodes, |nodes|, totlist, far)
    ensures State(totlist) == old(State(totlist))
  {
    hide LeastWrap, Faithful, IsSqrt, BestReach, Closest, Close, KingSteps, Exhaustive;
    ghost var m := |nodes| - 1;
    var i := 0;
    while i < |totlist|
      invariant 0 <= i <= |totlist|
      invariant forall k :: 0 <= k < i ==> Known(w, nodes, m + 1, totlist[k].poly, totlist[k].dist, far)
      invariant forall k :: i <= k < |totlist| ==> Known(w, nodes, m, totlist[k].poly, totlist[k].dist, far)
      invariant forall q :: q in totlist ==> Contents(q) == old(Contents(q))
    {
      var j := totlist[i];
      var h := FindMin(last.poly, j.poly, j.dist.d, w.wrap, sqrt);
      ReachFound(w, nodes, m, j.poly, j.dist, far, h);
      j.dist := NewReach(j.dist, h, last);
      i := i + 1;
    }
  }

  /** The second loop: the remaining node with the least distance. */
  method PickNearest(totlist: seq<Polynode>, far: int) returns (i: nat)
    requires 0 < |totlist| && forall k :: 0 <= k < |totlist| ==> 0 <= totlist[k].dist.d < far
    ensures i < |totlist| && forall k :: 0 <= k < |totlist| ==> totlist[i].dist.d <= totlist[k].dist.d
  {
    var mindist := 10 * far;
    i := 0;
    var k := 0;
    while k < |totlist|
      invariant 0 <= k <= |totlist| && i < |totlist|
      invariant 0 < k ==> i < k && mindist == totlist[i].dist.d
      invariant k == 0 ==> mindist == 10 * far
      invariant forall j :: 0 <= j < k ==> mindist <= totlist[j].dist.d
    {
      if totlist[k].dist.d < mindist {
        i, mindist := k, totlist[k].dist.d;
      }
      k := k + 1;
    }
  }

  /** Everything the tree says about its nodes is there in the heap. */
  ghost predicate Built(nodes: seq<Polynode>, s: seq<Held>, f: Forest, parent: seq<nat>)
  {
    && Nodes(nodes, f, parent) && |s| == |f|
    && forall b :: 0 <= b < |s| ==> Holds(nodes, s[b], f[b].poly, f[b].links)
  }

  /** A link joins two points at its own length, and no other pair of points is closer across the cut
      between the nodes before its target and the other nodes, `later` included. */
  ghost predicate ShortestAcross(w: Wrapping, nodes: seq<Polynode>, f: Forest, a: nat, l: Link, later: seq<Polynode>)
    requires |nodes| == |f|
  {
    && a < l.target < |f| && l.start < |nodes[a].poly| && l.index < |nodes[l.target].poly|
    && Sq(l.v) == Dist(w.wrap, nodes[a].poly[l.start], nodes[l.target].poly[l.index])
    && w.Leads(nodes[a].poly[l.start], nodes[l.target].poly[l.index], l.v)
    && forall b, q :: 0 <= b < l.target && q in nodes[l.target..] + later ==>
       FarApart(w, nodes[b].poly, q.poly, Sq(l.v))
  }

  ghost predicate AllShortest(w: Wrapping, nodes: seq<Polynode>, f: Forest, later: seq<Polynode>)
    requires |nodes| == |f|
  {
    forall a, k :: 0 <= a < |f| && 0 <= k < |f[a].links| ==> ShortestAcross(w, nodes, f, a, f[a].links[k], later)
  }

  /** The tree with a new node, linked from node a. */
  ghost function Grown(f: Forest, a: nat, l: Link, poly: Polygon): Forest
    requires a < |f|
  {
    f[a := Node(f[a].poly, f[a].links + [l])] + [Node(poly, [])]
  }

  lemma TreeGrows(f: Forest, parent: seq<nat>, a: nat, l: Link, poly: Polygon)
    requires Tree(f, parent) && a < |f| && l.target == |f| && l.start < |f[a].poly| && l.index < |poly|
    ensures Tree(Grown(f, a, l, poly), parent + [a])
  {
    var f', parent' := Grown(f, a, l, poly), parent + [a];
    forall b | 0 <= b < |f'|
      ensures NodeOk(f', parent', b)
    {
      if b < |f| {
        assert NodeOk(f, parent, b);
        forall k | 0 <= k < |f'[b].links|
          ensures LinkOk(f', parent', b, f'[b].links[k])
        {
          assert k < |f[b].links| ==> LinkOk(f, parent, b, f[b].links[k]);
        }
        forall j, k | 0 <= j < k < |f'[b].links|
          ensures f'[b].links[j].target != f'[b].links[k].target
        {
          assert LinkOk(f, parent, b, f[b].links[j]);
        }
      }
    }
    forall b | 0 < b < |f'|
      ensures HasLink(f', parent'[b], b)
    {
      if b < |f| {
        assert HasLink(f, parent[b], b);
        var k :| 0 <= k < |f[parent[b]].links| && f[parent[b]].links[k].target == b;
        assert f'[parent[b]].links[k].target == b;
      } else {
        assert f'[a].links[|f[a].links|] == l;
      }
    }
  }

  lemma BuiltGrows(nodes: seq<Polynode>, s: seq<Held>, f: Forest, parent: seq<nat>, a: nat, l: Link, q: Polynode,
                   s': seq<Held>)
    requires Built(nodes, s, f, parent) && a < |f| && q !in nodes
    requires l.target == |f| && l.start < |f[a].poly| && l.index < |q.poly|
    requires |s'| == |s| + 1 && (forall b :: 0 <= b < |s| && b != a ==> s'[b] == s[b])
    requires s'[a] == Held(s[a].poly, s[a].linkstarts + [l.start],
                           s[a].linktargets + [Target(q, l.index, l.v.dx, l.v.dy)])
    requires s'[|s|] == Held(q.poly, [], [])
    ensures Built(nodes + [q], s', Grown(f, a, l, q.poly), parent + [a])
  {
    hide Tree, Ordered;
    var f' := Grown(f, a, l, q.poly);
    TreeGrows(f, parent, a, l, q.poly);
    TreeOrdered(f', parent + [a]);
    TreeParents(f', parent + [a]);
    forall b | 0 <= b < |s'|
      ensures Holds(nodes + [q], s'[b], f'[b].poly, f'[b].links)
    {
      if b < |s| {
        assert Holds(nodes, s[b], f[b].poly, f[b].links);
      }
    }
  }

  lemma TreeParents(f: Forest, parent: seq<nat>)
    requires Tree(f, parent)
    ensures ParentsOk(parent) && |f| == |parent|
  {
  }

  /** The link to the nearest remaining node is shortest across the present cut. */
  lemma NewLinkShortest(w: Wrapping, nodes: seq<Polynode>, f: Forest, totlist: seq<Polynode>, i: nat, far: int,
                        dists: seq<Reach>, a: nat, l: Link)
    requires |nodes| == |f| && i < |totlist| == |dists| && a < |f|
    requires forall k :: 0 <= k < |totlist| ==> BestReach(w, nodes, |nodes|, totlist[k].poly, dists[k], far)
    requires forall k :: 0 <= k < |totlist| ==> dists[i].d <= dists[k].d
    requires Reaches(w, nodes, a, totlist[i].poly, dists[i])
    requires l == Link(dists[i].k, |f|, dists[i].l, Vec(dists[i].dx, dists[i].dy))
    ensures ShortestAcross(w, nodes + [totlist[i]], Grown(f, a, l, totlist[i].poly), a, l,
                           totlist[..i] + totlist[i + 1..])
  {
    hide Dist, Sq, SameSpot;
    var q, rest := totlist[i], totlist[..i] + totlist[i + 1..];
    assert (nodes + [q])[|f|..] == [q];
    forall b, z | 0 <= b < |f| && z in [q] + rest
      ensures FarApart(w, (nodes + [q])[b].poly, z.poly, Sq(l.v))
    {
      var k :| 0 <= k < |totlist| && totlist[k] == z;
      assert FarApart(w, nodes[b].poly, z.poly, dists[k].d);
    }
  }

  lemma OldLinksShortest(w: Wrapping, nodes: seq<Polynode>, f: Forest, totlist: seq<Polynode>, i: nat, a: nat, l: Link)
    requires |nodes| == |f| && i < |totlist| && a < |f| && AllShortest(w, nodes, f, totlist)
    requires ShortestAcross(w, nodes + [totlist[i]], Grown(f, a, l, totlist[i].poly), a, l,
                            totlist[..i] + totlist[i + 1..])
    ensures AllShortest(w, nodes + [totlist[i]], Grown(f, a, l, totlist[i].poly), totlist[..i] + totlist[i + 1..])
  {
    hide Dist, Sq, FarApart;
    var q, rest := totlist[i], totlist[..i] + totlist[i + 1..];
    var nodes', f' := nodes + [q], Grown(f, a, l, q.poly);
    forall b, k | 0 <= b < |f'| && 0 <= k < |f'[b].links|
      ensures ShortestAcross(w, nodes', f', b, f'[b].links[k], rest)
    {
      if !(b == a && k == |f[a].links|) {
        var m := f[b].links[k];
        assert ShortestAcross(w, nodes, f, b, m, totlist);
        forall z | z in nodes'[m.target..] + rest
          ensures z in nodes[m.target..] + totlist
        {
          SameCut(nodes, totlist, i, m.target, z);
        }
      }
    }
  }

  lemma SameCut(nodes: seq<Polynode>, totlist: seq<Polynode>, i: nat, t: nat, z: Polynode)
    requires i < |totlist| && t <= |nodes|
    requires z in (nodes + [totlist[i]])[t..] + (totlist[..i] + totlist[i + 1..])
    ensures z in nodes[t..] + totlist
  {
    assert (nodes + [totlist[i]])[t..] == nodes[t..] + [totlist[i]];
    assert totlist == totlist[..i] + [totlist[i]] + totlist[i + 1..];
  }

  /** The linking loop has connected `nodes`, which hold s, and the nodes of totlist, which hold ts, are
      left. */
  ghost predicate Linking(w: Wrapping, nodes: seq<Polynode>, s: seq<Held>, f: Forest, parent: seq<nat>,
                          totlist: seq<Polynode>, ts: seq<Held>, all: seq<Polynode>)
  {
    && 0 < |nodes| == |s| && Built(nodes, s, f, parent) && AllShortest(w, nodes, f, totlist)
    && (forall b :: 0 <= b < |s| ==> s[b].poly == nodes[b].poly)
    && Distinct(nodes) && Distinct(totlist) && (forall q :: q in totlist ==> q !in nodes)
    && multiset(nodes) + multiset(totlist) == multiset(all)
    && |ts| == |totlist| && forall k :: 0 <= k < |ts| ==> ts[k] == Held(totlist[k].poly, [], [])
  }

  lemma InAll(w: Wrapping, nodes: seq<Polynode>, s: seq<Held>, f: Forest, parent: seq<nat>,
              totlist: seq<Polynode>, ts: seq<Held>, all: seq<Polynode>)
    requires Linking(w, nodes, s, f, parent, totlist, ts, all)
    ensures forall q :: q in nodes || q in totlist ==> q in all
    ensures 0 < |nodes| && Distinct(totlist) && forall q :: q in totlist ==> q !in nodes
  {
    forall q | q in nodes || q in totlist
      ensures q in all
    {
      assert q in multiset(all);
    }
  }

  /** The tree of one node. */
  lemma Root(w: Wrapping, q: Polynode, s: seq<Held>)
    requires q.poly != [] && s == [Held(q.poly, [], [])]
    ensures Built([q], s, [Node(q.poly, [])], [0])
    ensures forall later :: AllShortest(w, [q], [Node(q.poly, [])], later)
  {
    var f := [Node(q.poly, [])];
    assert NodeOk(f, [0], 0);
    TreeOrdered(f, [0]);
  }

  /** Append a link to both lists of a node. */
  method AddLink(from: Polynode, mink: Polynode, r: Reach, ghost nodes: seq<Polynode>, ghost a: nat)
    requires a < |nodes| && from == nodes[a] && Distinct(nodes) && mink !in nodes
    modifies from`linkstarts, from`linktargets
    ensures State(nodes + [mink])
         == old(State(nodes))[a := Held(from.poly, old(from.linkstarts) + [r.k],
                                     old(from.linktargets) + [Target(mink, r.l, r.dx, r.dy)])]
            + [Contents(mink)]
    ensures Contents(mink) == old(Contents(mink))
  {
    from.linkstarts := from.linkstarts + [r.k];
    from.linktargets := from.linktargets + [Target(mink, r.l, r.dx, r.dy)];
  }

  /** Linking the nearest remaining node keeps all that is known about the tree. */
  lemma NearestLinked(w: Wrapping, nodes: seq<Polynode>, s: seq<Held>, f: Forest, parent: seq<nat>,
                      totlist: seq<Polynode>, i: nat,
                      far: int, dists: seq<Reach>, a: nat, s': seq<Held>) returns (f': Forest, parent': seq<nat>)
    requires Built(nodes, s, f, parent) && AllShortest(w, nodes, f, totlist) && 0 < |nodes| == |f| && a < |f|
    requires i < |totlist| == |dists| && totlist[i] !in nodes
    requires |s| == |nodes| && forall b :: 0 <= b < |s| ==> s[b].poly == nodes[b].poly
    requires forall k :: 0 <= k < |totlist| ==> Known(w, nodes, |nodes|, totlist[k].poly, dists[k], far)
    requires forall k :: 0 <= k < |totlist| ==> dists[i].d <= dists[k].d
    requires Reaches(w, nodes, a, totlist[i].poly, dists[i])
    requires s' == s[a := Held(s[a].poly, s[a].linkstarts + [dists[i].k],
                               s[a].linktargets + [Target(totlist[i], dists[i].l, dists[i].dx, dists[i].dy)])]
                   + [Held(totlist[i].poly, [], [])]
    ensures Built(nodes + [totlist[i]], s', f', parent') && |f'| == |nodes| + 1
    ensures AllShortest(w, nodes + [totlist[i]], f', totlist[..i] + totlist[i + 1..])
  {
    hide Tree, Ordered, FarApart, Dist, Sq, SameSpot, BestReach;
    var r := dists[i];
    var l := Link(r.k, |f|, r.l, Vec(r.dx, r.dy));
    NewLinkShortest(w, nodes, f, totlist, i, far, dists, a, l);
    OldLinksShortest(w, nodes, f, totlist, i, a, l);
    assert Holds(nodes, s[a], f[a].poly, f[a].links);
    f', parent' := Grown(f, a, l, totlist[i].poly), parent + [a];
    BuiltGrows(nodes, s, f, parent, a, l, totlist[i], s');
  }

  /** Link the nearest remaining node to the tree. */
  method LinkNearest(w: Wrapping, mink: Polynode, i: nat, far: int, totlist: seq<Polynode>,
                     ghost nodes: seq<Polynode>, ghost f: Forest, ghost parent: seq<nat>, ghost all: seq<Polynode>)
    returns (ghost f': Forest, ghost parent': seq<nat>)
    requires Linking(w, nodes, State(nodes), f, parent, totlist, State(totlist), all)
    requires i < |totlist| && mink == totlist[i] && Reached(w, nodes, |nodes|, totlist, far)
    requires forall k :: 0 <= k < |totlist| ==> totlist[i].dist.d <= totlist[k].dist.d
    modifies nodes
    ensures Linking(w, nodes + [mink], State(nodes + [mink]), f', parent',
                    totlist[..i] + totlist[i + 1..], State(totlist[..i] + totlist[i + 1..]), all)
    ensures Reached(w, nodes + [mink], |nodes|, totlist[..i] + totlist[i + 1..], far)
  {
    hide Built, AllShortest, Known, Reaches, Distinct, Linking;
    ghost var dists := seq(|totlist|, k requires 0 <= k < |totlist| reads totlist => totlist[k].dist);
    ghost var s0, ts := State(nodes), State(totlist);
    LinkingParts(w, nodes, s0, f, parent, totlist, ts, all);
    KnownPrefix(w, nodes, mink, totlist, dists, i, far);
    ghost var a := Origin(w, nodes, mink.poly, mink.dist, far);
    Lengths(w, nodes, s0, f, parent, a, mink.poly, mink.dist);
    AddLink(mink.dist.from, mink, mink.dist, nodes, a);
    f', parent' := NearestLinked(w, nodes, s0, f, parent, totlist, i, far, dists, a, State(nodes + [mink]));
    assert State(totlist[..i] + totlist[i + 1..]) == ts[..i] + ts[i + 1..];
    LinkingNext(w, nodes, s0, f, parent, totlist, ts, all, i, State(nodes + [mink]), f', parent');
  }

  ghost function Origin(w: Wrapping, nodes: seq<Polynode>, q: Polygon, r: Reach, far: int): (a: nat)
    requires 0 < |nodes| && Known(w, nodes, |nodes|, q, r, far)
    ensures a < |nodes| && Reaches(w, nodes, a, q, r)
  {
    NearestNode(w, nodes, q, r, far)
  }

  lemma LinkingParts(w: Wrapping, nodes: seq<Polynode>, s: seq<Held>, f: Forest, parent: seq<nat>,
                     totlist: seq<Polynode>, ts: seq<Held>, all: seq<Polynode>)
    requires Linking(w, nodes, s, f, parent, totlist, ts, all)
    ensures 0 < |nodes| == |s| == |f| && Built(nodes, s, f, parent) && AllShortest(w, nodes, f, totlist)
            && Distinct(nodes)
    ensures |ts| == |totlist| && (forall b :: 0 <= b < |s| ==> s[b].poly == nodes[b].poly)
    ensures forall k :: 0 <= k < |totlist| ==> totlist[k] !in nodes && ts[k] == Held(totlist[k].poly, [], [])
  {
  }

  lemma LinkingNext(w: Wrapping, nodes: seq<Polynode>, s: seq<Held>, f: Forest, parent: seq<nat>,
                    totlist: seq<Polynode>, ts: seq<Held>, all: seq<Polynode>, i: nat,
                    s': seq<Held>, f': Forest, parent': seq<nat>)
    requires Linking(w, nodes, s, f, parent, totlist, ts, all) && i < |totlist|
    requires |s'| == |nodes| + 1 && forall b :: 0 <= b < |s'| ==> s'[b].poly == (nodes + [totlist[i]])[b].poly
    requires Built(nodes + [totlist[i]], s', f', parent') && |f'| == |nodes| + 1
    requires AllShortest(w, nodes + [totlist[i]], f', totlist[..i] + totlist[i + 1..])
    ensures Linking(w, nodes + [totlist[i]], s', f', parent',
                    totlist[..i] + totlist[i + 1..], ts[..i] + ts[i + 1..], all)
  {
    hide Built, AllShortest, Distinct;
    SplitList(totlist, i);
    DistinctMore(nodes, totlist[i]);
    MoveNode(nodes, totlist, i, all);
  }

  /** What is known about the remaining nodes does not depend on the new node. */
  lemma KnownPrefix(w: Wrapping, nodes: seq<Polynode>, q: Polynode, totlist: seq<Polynode>, dists: seq<Reach>, i: nat,
                    far: int)
    requires i < |totlist| == |dists| && 0 < |nodes|
    requires forall k :: 0 <= k < |totlist| ==> Known(w, nodes, |nodes|, totlist[k].poly, dists[k], far)
    ensures forall k :: 0 <= k < |totlist| ==> Known(w, nodes + [q], |nodes|, totlist[k].poly, dists[k], far)
  {
    hide FarApart, Dist, Sq, SameSpot;
    forall k | 0 <= k < |totlist|
      ensures Known(w, nodes + [q], |nodes|, totlist[k].poly, dists[k], far)
    {
      assert Known(w, nodes, |nodes|, totlist[k].poly, dists[k], far);
      var a := NearestNode(w, nodes, totlist[k].poly, dists[k], far);
      assert Reaches(w, nodes + [q], a, totlist[k].poly, dists[k]);
    }
  }

  lemma DistinctMore(nodes: seq<Polynode>, q: Polynode)
    requires Distinct(nodes) && q !in nodes
    ensures Distinct(nodes + [q])
  {
  }

  lemma MoveNode(nodes: seq<Polynode>, totlist: seq<Polynode>, i: nat, all: seq<Polynode>)
    requires i < |totlist| && multiset(nodes) + multiset(totlist) == multiset(all)
    ensures multiset(nodes + [totlist[i]]) + multiset(totlist[..i] + totlist[i + 1..]) == multiset(all)
  {
    assert totlist == totlist[..i] + [totlist[i]] + totlist[i + 1..];
  }

  lemma Lengths(w: Wrapping, nodes: seq<Polynode>, s: seq<Held>, f: Forest, parent: seq<nat>, a: nat, q: Polygon,
                r: Reach)
    requires Built(nodes, s, f, parent) && a < |nodes| && Reaches(w, nodes, a, q, r)
    ensures |f| == |nodes| == |s| && r.from == nodes[a]
  {
  }

  ghost function NearestNode(w: Wrapping, nodes: seq<Polynode>, q: Polygon, r: Reach, far: int): (a: nat)
    requires 0 < |nodes| && BestReach(w, nodes, |nodes|, q, r, far)
    ensures a < |nodes| && Reaches(w, nodes, a, q, r)
  {
    var a :| 0 <= a < |nodes| && Reaches(w, nodes, a, q, r);
    a
  }

  lemma SplitList(totlist: seq<Polynode>, i: nat)
    requires i < |totlist| && Distinct(totlist)
    ensures multiset(totlist) == multiset([totlist[i]]) + multiset(totlist[..i] + totlist[i + 1..])
    ensures Distinct(totlist[..i] + totlist[i + 1..])
    ensures forall q :: q in totlist[..i] + totlist[i + 1..] ==> q in totlist && q != totlist[i]
  {
    assert totlist == totlist[..i] + [totlist[i]] + totlist[i + 1..];
  }

  /** What poly_link needs of the nodes it is given. */
  ghost predicate Fresh(totlist: seq<Polynode>, far: int)
    reads totlist
  {
    && Distinct(totlist)
    && forall q :: q in totlist ==> q.linkstarts == [] && q.linktargets == [] && q.dist.d == far
  }

  /** poly_link, from the list of nodes on: link the polygons into a tree, every link being a shortest one
      across the cut between the polygons linked before it and the others, and return the outline that
      walks around the tree. */
  method LinkPolys(totlist0: seq<Polynode>, w: Wrapping, sqrt: nat -> real, far: int)
    returns (result: seq<Entry>, ghost nodes: seq<Polynode>, ghost f: Forest, ghost parent: seq<nat>)
    requires 0 < |totlist0| && Fresh(totlist0, far)
    requires w.Ok() && IsSqrt(sqrt) && GoodPolys(w, (set q | q in totlist0), far)
    modifies totlist0
    ensures multiset(nodes) == multiset(totlist0) && |nodes| == |f|
    ensures Tree(f, parent) && Ordered(f) && forall a :: 0 <= a < |f| ==> f[a].poly == nodes[a].poly
    ensures AllShortest(w, nodes, f, [])
    ensures result == EntriesOf(Walk(f, 0, f[0].poly[0].x, f[0].poly[0].y, 0))
  {
    hide Tree, Ordered, LeastWrap, Faithful, IsSqrt, Walk, AllShortest, Reached, Linking, KingSteps, Close, Nodes,
         Intact, AllIn;
    ghost var all := set q | q in totlist0;
    var n := |totlist0| - 1;
    var res := totlist0[n];
    var last := res;
    var totlist := totlist0[..n];
    nodes := [res];
    f, parent := [Node(res.poly, [])], [0];
    StartLinking(w, totlist0, far, State(nodes), State(totlist));
    NothingReached(w, nodes, totlist, far);
    assert AllIn(nodes, all) && AllIn(totlist, all) by { Inside(totlist0); }
    while totlist != []
      invariant 0 < |nodes| && last == nodes[|nodes| - 1] && nodes[0] == res
      invariant Linking(w, nodes, State(nodes), f, parent, totlist, State(totlist), totlist0)
      invariant AllIn(nodes, all) && AllIn(totlist, all)
      invariant Reached(w, nodes, |nodes| - 1, totlist, far)
      decreases |totlist|
    {
      last, totlist, nodes, f, parent := LinkNext(last, totlist, w, sqrt, far, nodes, f, parent, totlist0, all);
    }
    FinishLinking(w, nodes, State(nodes), f, parent, totlist0);
    result := WalkAround(res, nodes, f, parent, all);
  }

  method WalkAround(res: Polynode, ghost nodes: seq<Polynode>, ghost f: Forest, ghost parent: seq<nat>,
                    ghost objs: set<Polynode>)
    returns (result: seq<Entry>)
    requires Nodes(nodes, f, parent) && nodes[0] == res && f[0].poly == res.poly && res.poly != []
    requires Intact(nodes, State(nodes), f, parent, 0) && AllIn(nodes, objs)
    modifies objs
    ensures result == EntriesOf(Walk(f, 0, res.poly[0].x, res.poly[0].y, 0))
  {
    hide Ordered, Under, Walk, Intact;
    result := Traverse(res, res.poly[0].x, res.poly[0].y, 0, [], nodes, f, parent, 0);
  }

  lemma StartLinking(w: Wrapping, totlist0: seq<Polynode>, far: int, s: seq<Held>, ts: seq<Held>)
    requires 0 < |totlist0| && Distinct(totlist0) && totlist0[|totlist0| - 1].poly != []
    requires s == [Held(totlist0[|totlist0| - 1].poly, [], [])] && |ts| == |totlist0| - 1
    requires forall k :: 0 <= k < |ts| ==> ts[k] == Held(totlist0[k].poly, [], [])
    ensures var n := |totlist0| - 1;
            Linking(w, [totlist0[n]], s, [Node(totlist0[n].poly, [])], [0], totlist0[..n], ts, totlist0)
  {
    var n := |totlist0| - 1;
    Root(w, totlist0[n], s);
    assert totlist0 == totlist0[..n] + [totlist0[n]];
  }

  lemma Inside(s: seq<Polynode>)
    requires 0 < |s|
    ensures AllIn([s[|s| - 1]], set q | q in s) && AllIn(s[..|s| - 1], set q | q in s)
  {
  }

  lemma NothingReached(w: Wrapping, nodes: seq<Polynode>, totlist: seq<Polynode>, far: int)
    requires 0 <= far && forall q :: q in totlist ==> q.dist.d == far
    ensures Reached(w, nodes, 0, totlist, far)
  {
  }

  lemma FinishLinking(w: Wrapping, nodes: seq<Polynode>, s: seq<Held>, f: Forest, parent: seq<nat>, all: seq<Polynode>)
    requires Linking(w, nodes, s, f, parent, [], [], all)
    ensures multiset(nodes) == multiset(all) && Nodes(nodes, f, parent) && |s| == |f| == |nodes|
    ensures Tree(f, parent) && Ordered(f) && ParentsOk(parent) && |parent| == |f| && 0 < |f| && f[0].poly != []
    ensures AllShortest(w, nodes, f, []) && Intact(nodes, s, f, parent, 0)
    ensures forall a :: 0 <= a < |f| ==> f[a].poly == nodes[a].poly
  {
    hide Tree, Under;
    forall a | 0 <= a < |f|
      ensures f[a].poly == nodes[a].poly
    {
      assert Holds(nodes, s[a], f[a].poly, f[a].links);
    }
  }

  ghost predicate AllIn(s: seq<Polynode>, objs: set<Polynode>) {
    forall k :: 0 <= k < |s| ==> s[k] in objs
  }

  /** One round of the linking loop. */
  method LinkNext(last: Polynode, totlist: seq<Polynode>, w: Wrapping, sqrt: nat -> real, far: int,
                  ghost nodes: seq<Polynode>, ghost f: Forest, ghost parent: seq<nat>, ghost all: seq<Polynode>,
                  ghost objs: set<Polynode>)
    returns (mink: Polynode, rest: seq<Polynode>, ghost nodes': seq<Polynode>, ghost f': Forest,
             ghost parent': seq<nat>)
    requires Linking(w, nodes, State(nodes), f, parent, totlist, State(totlist), all) && totlist != []
    requires last == nodes[|nodes| - 1] && Reached(w, nodes, |nodes| - 1, totlist, far)
    requires w.Ok() && IsSqrt(sqrt) && GoodPolys(w, (set q | q in all), far)
    requires AllIn(nodes, objs) && AllIn(totlist, objs)
    modifies objs
    ensures Linking(w, nodes', State(nodes'), f', parent', rest, State(rest), all)
    ensures nodes' == nodes + [mink] && |rest| == |totlist| - 1 && AllIn(nodes', objs) && AllIn(rest, objs)
    ensures Reached(w, nodes', |nodes|, rest, far)
  {
    hide Linking, Reached, GoodPolys, LeastWrap, Faithful, IsSqrt;
    InAll(w, nodes, State(nodes), f, parent, totlist, State(totlist), all);
    UpdateDists(last, totlist, w, sqrt, far, nodes, set q | q in all);
    assert State(nodes) == old(State(nodes));
    Reachable(w, nodes, totlist, all, far);
    var i := PickNearest(totlist, far);
    mink := totlist[i];
    f', parent' := LinkNearest(w, mink, i, far, totlist, nodes, f, parent, all);
    rest := totlist[..i] + totlist[i + 1..];
    nodes' := nodes + [mink];
  }

  lemma Reachable(w: Wrapping, nodes: seq<Polynode>, totlist: seq<Polynode>, all: seq<Polynode>, far: int)
    requires 0 < |nodes| && Reached(w, nodes, |nodes|, totlist, far) && GoodPolys(w, (set q | q in all), far)
    requires forall q :: q in nodes || q in totlist ==> q in all
    ensures forall k :: 0 <= k < |totlist| ==> 0 <= totlist[k].dist.d < far
  {
    hide FarApart, Dist, Sq, KingSteps;
    forall k | 0 <= k < |totlist|
      ensures 0 <= totlist[k].dist.d < far
    {
      assert Known(w, nodes, |nodes|, totlist[k].poly, totlist[k].dist, far);
      var a := NearestNode(w, nodes, totlist[k].poly, totlist[k].dist, far);
      assert Close(w, nodes[a].poly, totlist[k].poly, far);
    }
  }
}
