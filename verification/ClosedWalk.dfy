/** When the walk around a tree of linked polygons is one closed outline. */
module ClosedWalk {
  import opened BlockMap
  import opened TracePoly
  import opened LinkTree

  datatype Spot = Spot(x: int, y: int)

  function Plus(p: Spot, v: Vec): Spot {
    Spot(p.x + v.dx, p.y + v.dy)
  }

  function Add(u: Vec, v: Vec): Vec {
    Vec(u.dx + v.dx, u.dy + v.dy)
  }

  /** Each step starts where the one before it ended, the first one at p. */
  predicate Chained(s: seq<Visit>, p: Spot) {
    s == [] || (Spot(s[0].x, s[0].y) == p && Chained(s[1..], Plus(p, s[0].v)))
  }

  /** Where all steps together lead from p. */
  function EndOf(s: seq<Visit>, p: Spot): Spot {
    if s == [] then p else EndOf(s[1..], Plus(p, s[0].v))
  }

  lemma {:induction false} ChainedAppend(s: seq<Visit>, s': seq<Visit>, p: Spot)
    ensures Chained(s + s', p) <==> Chained(s, p) && Chained(s', EndOf(s, p))
    ensures EndOf(s + s', p) == EndOf(s', EndOf(s, p))
  {
    if s == [] {
      assert s + s' == s';
    } else {
      assert (s + s')[1..] == s[1..] + s';
      ChainedAppend(s[1..], s', Plus(p, s[0].v));
    }
  }

  lemma ChainedOne(v: Visit, p: Spot)
    ensures Chained([v], p) <==> Spot(v.x, v.y) == p
    ensures EndOf([v], p) == Plus(p, v.v)
  {
    assert Chained([], Plus(p, v.v)) && EndOf([], Plus(p, v.v)) == Plus(p, v.v);
  }

  /** The net displacement of a polygon. */
  function Net(poly: Polygon): Vec {
    if poly == [] then Vec(0, 0) else Add(poly[0].v, Net(poly[1..]))
  }

  lemma {:induction false} NetAppend(p: Polygon, q: Polygon)
    ensures Net(p + q) == Add(Net(p), Net(q))
  {
    if p == [] {
      assert p + q == q;
    } else {
      assert (p + q)[1..] == p[1..] + q;
      NetAppend(p[1..], q);
    }
  }

  /** The displacement of n edges around the polygon, from corner i on. */
  function Around(poly: Polygon, i: nat, n: nat): Vec
    requires i < |poly|
    decreases n
  {
    if n == 0 then Vec(0, 0) else Add(poly[i].v, Around(poly, NextIndex(i, |poly|), n - 1))
  }

  lemma NetOne(p: Point)
    ensures Net([p]) == p.v
  {
    assert Net([]) == Vec(0, 0);
  }

  lemma NetFirst(poly: Polygon, i: nat, j: nat)
    requires i < j <= |poly|
    ensures Net(poly[i..j]) == Add(poly[i].v, Net(poly[i + 1..j]))
  {
    assert poly[i..j][1..] == poly[i + 1..j];
  }

  lemma {:induction false} AroundStraight(poly: Polygon, i: nat, n: nat)
    requires i < |poly| && i + n <= |poly|
    ensures Around(poly, i, n) == Net(poly[i..i + n])
    decreases n
  {
    hide Net;
    if n == 0 {
      NetNone();
      assert poly[i..i] == [];
    } else {
      NetFirst(poly, i, i + n);
      if i + 1 < |poly| {
        AroundStraight(poly, i + 1, n - 1);
      } else {
        NetNone();
        assert poly[i + 1..i + n] == [];
      }
    }
  }

  lemma NetNone()
    ensures Net([]) == Vec(0, 0)
  {
  }

  /** Past the last corner, the rest of the way starts at corner 0. */
  lemma {:induction false} AroundWrap(poly: Polygon, i: nat, n: nat)
    requires i < |poly| && |poly| - i <= n
    ensures Around(poly, i, n) == Add(Net(poly[i..|poly|]), Around(poly, 0, n - (|poly| - i)))
    decreases |poly| - i
  {
    hide Net;
    NetFirst(poly, i, |poly|);
    if i + 1 < |poly| {
      AroundWrap(poly, i + 1, n - 1);
    } else {
      NetNone();
      assert poly[i + 1..|poly|] == [];
    }
  }

  /** Going all the way around gives the net displacement, from any corner. */
  lemma AroundWhole(poly: Polygon, i: nat)
    requires i < |poly|
    ensures Around(poly, i, |poly|) == Net(poly)
  {
    hide Net, Around;
    AroundWrap(poly, i, |poly|);
    AroundStraight(poly, 0, i);
    NetAppend(poly[..i], poly[i..|poly|]);
    assert poly[..i] + poly[i..|poly|] == poly && poly[0..i] == poly[..i];
  }

  predicate ClosedPolygon(poly: Polygon) {
    Net(poly) == Vec(0, 0)
  }

  /** All polygons below node a, but not that of a itself, are closed. */
  ghost predicate ClosedBelow(f: Forest, parent: seq<nat>, a: nat)
    requires ParentsOk(parent) && |f| == |parent|
  {
    forall b: nat :: b < |f| && Under(parent, a, b) && b != a ==> ClosedPolygon(f[b].poly)
  }

  ghost predicate ClosedBranch(f: Forest, parent: seq<nat>, c: nat)
    requires ParentsOk(parent) && |f| == |parent| && c < |f|
  {
    ClosedPolygon(f[c].poly) && ClosedBelow(f, parent, c)
  }

  /** The links of the list lead to closed polygons only. */
  ghost predicate ClosedBeyond(f: Forest, parent: seq<nat>, links: seq<Link>)
    requires ParentsOk(parent) && |f| == |parent|
  {
    forall l :: l in links ==> l.target < |f| && ClosedBranch(f, parent, l.target)
  }

  lemma {:induction false} ChainDetours(f: Forest, parent: seq<nat>, a: nat, links: seq<Link>, p: Spot)
    requires Tree(f, parent) && ParentsOk(parent) && Ordered(f) && |f| == |parent|
    requires ChildLinks(f, parent, a, links) && LinksLater(f, a, links)
    ensures Chained(Detours(f, a, links, p.x, p.y), p) <==> ClosedBeyond(f, parent, links)
    ensures Chained(Detours(f, a, links, p.x, p.y), p) ==> EndOf(Detours(f, a, links, p.x, p.y), p) == p
    decreases |f| - a, 0, |links|, 1
  {
    hide Tree, Ordered, ParentsOk, LinkOk, ClosedBranch, Detour;
    if links != [] {
      ChildLinksTail(f, parent, a, links);
      assert links[0] in links;
      ChainDetour(f, parent, a, links[0], p);
      ChainDetours(f, parent, a, links[1..], p);
      ChainedAppend(Detour(f, a, links[0], p.x, p.y), Detours(f, a, links[1..], p.x, p.y), p);
      assert links == [links[0]] + links[1..];
    }
  }

  lemma {:induction false} ChainDetour(f: Forest, parent: seq<nat>, a: nat, l: Link, p: Spot)
    requires Tree(f, parent) && ParentsOk(parent) && Ordered(f) && |f| == |parent|
    requires a < |f| && LinkOk(f, parent, a, l) && a < l.target
    ensures Chained(Detour(f, a, l, p.x, p.y), p) <==> ClosedBranch(f, parent, l.target)
    ensures Chained(Detour(f, a, l, p.x, p.y), p) ==> EndOf(Detour(f, a, l, p.x, p.y), p) == p
    decreases |f| - a, 0, 0, 0
  {
    hide Tree, Ordered, Chained, EndOf, ClosedBelow, Net;
    var c, q := l.target, Plus(p, l.v);
    var out := Visit(Out(c), p.x, p.y, l.v);
    var walk := Walk(f, c, q.x, q.y, l.index);
    var back := Visit(Back(c), q.x, q.y, Vec(-l.v.dx, -l.v.dy));
    ChainWalk(f, parent, c, q, l.index);
    ChainedAppend([out] + walk, [back], p);
    ChainedAppend([out], walk, p);
    ChainedOne(out, p);
    ChainedOne(back, EndOf(walk, q));
  }

  /** The walk below node a is a chain if and only if all polygons below it are closed. */
  lemma {:induction false} ChainWalk(f: Forest, parent: seq<nat>, a: nat, p: Spot, start: nat)
    requires Tree(f, parent) && ParentsOk(parent) && Ordered(f) && |f| == |parent|
    requires a < |f| && start < |f[a].poly|
    ensures Chained(Walk(f, a, p.x, p.y, start), p) <==> ClosedBelow(f, parent, a)
    ensures Chained(Walk(f, a, p.x, p.y, start), p) ==>
              EndOf(Walk(f, a, p.x, p.y, start), p) == Plus(p, Net(f[a].poly))
    decreases |f| - a, 2, 0, 0
  {
    hide Tree, Ordered, Chained, EndOf, WalkFrom, Net, ClosedBelow;
    ChainFrom(f, parent, a, p, start, |f[a].poly|);
    AroundWhole(f[a].poly, start);
    BelowIsBeyond(f, parent, a, start);
  }

  /** The links met on the next n edges lead to closed polygons only. */
  ghost predicate ClosedAhead(f: Forest, parent: seq<nat>, a: nat, i: nat, n: nat)
    requires ParentsOk(parent) && |f| == |parent| && a < |f|
  {
    forall l :: l in f[a].links && StepsTo(i, l.start, |f[a].poly|) < n ==>
                  l.target < |f| && ClosedBranch(f, parent, l.target)
  }

  lemma {:induction false} BelowIsBeyond(f: Forest, parent: seq<nat>, a: nat, start: nat)
    requires Tree(f, parent) && a < |f| && start < |f[a].poly|
    ensures ClosedBelow(f, parent, a) <==> ClosedAhead(f, parent, a, start, |f[a].poly|)
  {
    hide Net, Under;
    TreeChildLinks(f, parent, a);
    if ClosedBelow(f, parent, a) {
      forall l | l in f[a].links
        ensures l.target < |f| && ClosedBranch(f, parent, l.target)
      {
        assert LinkOk(f, parent, a, l);
        UnderSelf(parent, l.target);
        UnderStep(parent, a, l.target, l.target);
        forall b: nat | b < |f| && Under(parent, l.target, b)
          ensures Under(parent, a, b) && a != b
        {
          UnderStep(parent, a, l.target, b);
        }
      }
    }
    if ClosedAhead(f, parent, a, start, |f[a].poly|) {
      forall b: nat | b < |f| && Under(parent, a, b) && b != a
        ensures ClosedPolygon(f[b].poly)
      {
        var c := ChildToward(parent, a, b);
        assert HasLink(f, parent[c], c);
        assert LinkOk(f, parent, a, LinkTo(f, a, c));
        assert ClosedBranch(f, parent, c);
      }
    }
  }

  lemma UnderSelf(parent: seq<nat>, a: nat)
    requires ParentsOk(parent) && a < |parent|
    ensures Under(parent, a, a)
  {
  }

  lemma AheadStep(f: Forest, parent: seq<nat>, a: nat, i: nat, n: nat)
    requires Tree(f, parent) && a < |f| && i < |f[a].poly| && 0 < n <= |f[a].poly|
    ensures ClosedAhead(f, parent, a, i, n)
       <==> ClosedBeyond(f, parent, At(f[a].links, i)) && ClosedAhead(f, parent, a, NextIndex(i, |f[a].poly|), n - 1)
  {
    hide ClosedBranch, At;
    TreeChildLinks(f, parent, a);
    forall l: Link
      ensures l in At(f[a].links, i) <==> l in f[a].links && l.start == i
    {
      AtOk(f[a].links, i, l);
    }
    forall l | l in f[a].links
      ensures LinkOk(f, parent, a, l)
    {
    }
  }

  lemma {:induction false} ChainFrom(f: Forest, parent: seq<nat>, a: nat, p: Spot, i: nat, n: nat)
    requires Tree(f, parent) && ParentsOk(parent) && Ordered(f) && |f| == |parent|
    requires a < |f| && i < |f[a].poly| && n <= |f[a].poly|
    ensures Chained(WalkFrom(f, a, p.x, p.y, i, n), p) <==> ClosedAhead(f, parent, a, i, n)
    ensures Chained(WalkFrom(f, a, p.x, p.y, i, n), p) ==>
              EndOf(WalkFrom(f, a, p.x, p.y, i, n), p) == Plus(p, Around(f[a].poly, i, n))
    decreases |f| - a, 1, n, 0
  {
    hide Tree, Ordered, Chained, EndOf, Detours, ClosedAhead, ClosedBeyond, At;
    if n == 0 {
      TreeChildLinks(f, parent, a);
      ChainedNone(f, parent, a, i, p);
    } else {
      var v := f[a].poly[i].v;
      LinksAtLater(f, a, i);
      TreeChildLinks(f, parent, a);
      AtChildLinks(f, parent, a, f[a].links, i);
      var here, side := Detours(f, a, At(f[a].links, i), p.x, p.y), Visit(Side(a, i), p.x, p.y, v);
      var rest := WalkFrom(f, a, p.x + v.dx, p.y + v.dy, NextIndex(i, |f[a].poly|), n - 1);
      ChainDetours(f, parent, a, At(f[a].links, i), p);
      ChainFrom(f, parent, a, Plus(p, v), NextIndex(i, |f[a].poly|), n - 1);
      ChainedAppend(here + [side], rest, p);
      ChainedAppend(here, [side], p);
      ChainedOne(side, EndOf(here, p));
      AheadStep(f, parent, a, i, n);
    }
  }

  lemma ChainedNone(f: Forest, parent: seq<nat>, a: nat, i: nat, p: Spot)
    requires ParentsOk(parent) && |f| == |parent| && a < |f| && i < |f[a].poly|
    requires ChildLinks(f, parent, a, f[a].links)
    ensures Chained([], p) && EndOf([], p) == p && ClosedAhead(f, parent, a, i, 0)
  {
  }

  lemma PlusZero(p: Spot, v: Vec)
    ensures Plus(p, v) == p <==> v == Vec(0, 0)
  {
  }

  /** The whole walk is one closed outline if and only if every polygon has zero net displacement. */
  lemma OutlineCloses(f: Forest, parent: seq<nat>, p: Spot, start: nat)
    requires Tree(f, parent) && Ordered(f) && start < |f[0].poly|
    ensures Chained(Walk(f, 0, p.x, p.y, start), p) && EndOf(Walk(f, 0, p.x, p.y, start), p) == p
       <==> forall b :: 0 <= b < |f| ==> ClosedPolygon(f[b].poly)
  {
    hide Walk, Chained, EndOf, Net, Under;
    ChainWalk(f, parent, 0, p, start);
    forall b: nat | b < |f|
      ensures Under(parent, 0, b)
    {
      UnderRoot(parent, b);
    }
    PlusZero(p, Net(f[0].poly));
  }
}
