/** The tree of linked polygons that poly_link of mapconvert.py builds, and the walk around it that
    Polynode.traverse makes. */
module LinkTree {
  import opened BlockMap
  import opened TracePoly

  /** A link from a node: it leaves at corner `start`, and reaches corner `index` of node `target`. */
  datatype Link = Link(start: nat, target: nat, index: nat, v: Vec)

  datatype Node = Node(poly: Polygon, links: seq<Link>)

  /** Nodes in the order in which they were linked, the root first. */
  type Forest = seq<Node>

  /** Node b > 0 is linked from node parent[b], which was there before it. */
  ghost predicate ParentsOk(parent: seq<nat>) {
    forall b :: 0 < b < |parent| ==> parent[b] < b
  }

  ghost predicate LinkOk(f: Forest, parent: seq<nat>, a: nat, l: Link)
    requires a < |f|
  {
    && l.start < |f[a].poly| && 0 < l.target < |f| == |parent|
    && parent[l.target] == a && l.index < |f[l.target].poly|
  }

  /** The links of node a: each leads to a child of a, different ones to different children. */
  ghost predicate NodeOk(f: Forest, parent: seq<nat>, a: nat)
    requires a < |f|
  {
    && 0 < |f[a].poly|
    && (forall k :: 0 <= k < |f[a].links| ==> LinkOk(f, parent, a, f[a].links[k]))
    && (forall j, k :: 0 <= j < k < |f[a].links| ==> f[a].links[j].target != f[a].links[k].target)
  }

  ghost predicate HasLink(f: Forest, a: nat, b: nat) {
    a < |f| && exists k :: 0 <= k < |f[a].links| && f[a].links[k].target == b
  }

  /** Every node but the root is linked, from its parent and from no other node. */
  ghost predicate Tree(f: Forest, parent: seq<nat>) {
    && 0 < |f| == |parent| && ParentsOk(parent)
    && (forall a :: 0 <= a < |f| ==> NodeOk(f, parent, a))
    && (forall b :: 0 < b < |f| ==> HasLink(f, parent[b], b))
  }

  /** b is a, or a descendant of a. */
  ghost predicate Under(parent: seq<nat>, a: nat, b: nat)
    requires ParentsOk(parent)
    decreases b
  {
    b < |parent| && (b == a || (a < b && Under(parent, a, parent[b])))
  }

  lemma {:induction false} UnderOrder(parent: seq<nat>, a: nat, b: nat)
    requires ParentsOk(parent) && Under(parent, a, b)
    ensures a <= b < |parent|
  {
  }

  lemma {:induction false} UnderStep(parent: seq<nat>, a: nat, c: nat, b: nat)
    requires ParentsOk(parent) && 0 < c < |parent| && parent[c] == a && Under(parent, c, b)
    ensures Under(parent, a, b) && a < b
    decreases b
  {
    if c < b {
      UnderStep(parent, a, c, parent[b]);
    } else {
      assert Under(parent, a, a);
    }
  }

  /** Different children of a node have no descendant in common. */
  lemma {:induction false} ChildrenApart(parent: seq<nat>, c: nat, c': nat, b: nat)
    requires ParentsOk(parent) && 0 < c < |parent| && 0 < c' < |parent| && parent[c] == parent[c'] && c != c'
    requires Under(parent, c, b)
    ensures !Under(parent, c', b)
    decreases b
  {
    if Under(parent, c', b) {
      if c != b && c' != b {
        ChildrenApart(parent, c, c', parent[b]);
      }
    }
  }

  /** A proper descendant lies under a child. */
  lemma {:induction false} ChildAbove(parent: seq<nat>, a: nat, b: nat) returns (c: nat)
    requires ParentsOk(parent) && Under(parent, a, b) && a != b
    ensures 0 < c < |parent| && parent[c] == a && Under(parent, c, b)
    decreases b
  {
    if parent[b] == a {
      c := b;
    } else {
      c := ChildAbove(parent, a, parent[b]);
    }
  }

  // ---------------------------------------------------------------- the walk

  /** What a step of the walk does: take edge i of polygon a, the link to node b, or that link back. */
  datatype Tag = Side(a: nat, i: nat) | Out(b: nat) | Back(b: nat)

  /** A step of the walk, the place where it starts, and how far it goes. */
  datatype Visit = Visit(tag: Tag, x: int, y: int, v: Vec)

  /** The links leaving at corner i, in their order in the list. */
  function At(links: seq<Link>, i: nat): seq<Link> {
    if links == [] then []
    else (if links[0].start == i then [links[0]] else []) + At(links[1..], i)
  }

  lemma {:induction false} AtOk(links: seq<Link>, i: nat, l: Link)
    ensures l in At(links, i) <==> l in links && l.start == i
  {
    if links != [] {
      AtOk(links[1..], i, l);
      assert links == [links[0]] + links[1..];
    }
  }

  function NextIndex(i: nat, n: nat): nat
    requires i < n
  {
    if i + 1 == n then 0 else i + 1
  }

  /** All polygons have an edge, and all links lead to a corner of a later polygon. */
  ghost predicate Ordered(f: Forest) {
    && (forall a :: 0 <= a < |f| ==> 0 < |f[a].poly|)
    && (forall a, k :: 0 <= a < |f| && 0 <= k < |f[a].links| ==>
          a < f[a].links[k].target < |f| && f[a].links[k].index < |f[f[a].links[k].target].poly|)
  }

  ghost predicate LinksLater(f: Forest, a: nat, links: seq<Link>) {
    forall l :: l in links ==> a < l.target < |f| && l.index < |f[l.target].poly|
  }

  /** Walk around the tree below node a, starting at corner `start` of it. */
  ghost function Walk(f: Forest, a: nat, x: int, y: int, start: nat): seq<Visit>
    requires Ordered(f) && a < |f| && start < |f[a].poly|
    decreases |f| - a, 2, 0
  {
    WalkFrom(f, a, x, y, start, |f[a].poly|)
  }

  /** The last n edges of that walk, with the detours between them. */
  ghost function WalkFrom(f: Forest, a: nat, x: int, y: int, i: nat, n: nat): seq<Visit>
    requires Ordered(f) && a < |f| && i < |f[a].poly|
    decreases |f| - a, 1, n
  {
    if n == 0 then [] else
      LinksAtLater(f, a, i);
      var v := f[a].poly[i].v;
      Detours(f, a, At(f[a].links, i), x, y)
      + [Visit(Side(a, i), x, y, v)]
      + WalkFrom(f, a, x + v.dx, y + v.dy, NextIndex(i, |f[a].poly|), n - 1)
  }

  /** Along each of the links, around the tree below, and back. */
  ghost function Detours(f: Forest, a: nat, links: seq<Link>, x: int, y: int): seq<Visit>
    requires Ordered(f) && a < |f| && LinksLater(f, a, links)
    decreases |f| - a, 0, |links|
  {
    if links == [] then [] else
      Detour(f, a, links[0], x, y) + Detours(f, a, links[1..], x, y)
  }

  ghost function Detour(f: Forest, a: nat, l: Link, x: int, y: int): seq<Visit>
    requires Ordered(f) && a < l.target < |f| && l.index < |f[l.target].poly|
    decreases |f| - a, 0, 0
  {
    [Visit(Out(l.target), x, y, l.v)]
    + Walk(f, l.target, x + l.v.dx, y + l.v.dy, l.index)
    + [Visit(Back(l.target), x + l.v.dx, y + l.v.dy, Vec(-l.v.dx, -l.v.dy))]
  }

  lemma LinksAtLater(f: Forest, a: nat, i: nat)
    requires Ordered(f) && a < |f|
    ensures LinksLater(f, a, At(f[a].links, i))
  {
    forall l | l in At(f[a].links, i)
      ensures l in f[a].links
    {
      AtOk(f[a].links, i, l);
    }
  }

  lemma TreeOrdered(f: Forest, parent: seq<nat>)
    requires Tree(f, parent)
    ensures Ordered(f)
  {
    forall a, k | 0 <= a < |f| && 0 <= k < |f[a].links|
      ensures a < f[a].links[k].target < |f| && f[a].links[k].index < |f[f[a].links[k].target].poly|
    {
      assert NodeOk(f, parent, a);
      assert LinkOk(f, parent, a, f[a].links[k]);
    }
    forall a | 0 <= a < |f|
      ensures 0 < |f[a].poly|
    {
      assert NodeOk(f, parent, a);
    }
  }

  // ---------------------------------------------------------------- every step exactly once

  /** How often the walk s makes the step t. */
  ghost function Occ(s: seq<Visit>, t: Tag): nat {
    if s == [] then 0 else (if s[0].tag == t then 1 else 0) + Occ(s[1..], t)
  }

  lemma {:induction false} OccAppend(s: seq<Visit>, s': seq<Visit>, t: Tag)
    ensures Occ(s + s', t) == Occ(s, t) + Occ(s', t)
  {
    if s == [] {
      assert s + s' == s';
    } else {
      assert (s + s')[1..] == s[1..] + s';
      OccAppend(s[1..], s', t);
    }
  }

  function NodeOf(t: Tag): nat {
    match t
    case Side(a, i) => a
    case Out(b) => b
    case Back(b) => b
  }

  /** t is a step of this tree: a polygon edge, or a link one way or the other. */
  predicate StepOk(f: Forest, t: Tag) {
    match t
    case Side(a, i) => a < |f| && i < |f[a].poly|
    case Out(b) => 0 < b < |f|
    case Back(b) => 0 < b < |f|
  }

  /** t is a step below node a. */
  ghost predicate Within(f: Forest, parent: seq<nat>, a: nat, t: Tag)
    requires ParentsOk(parent)
  {
    StepOk(f, t) && Under(parent, a, NodeOf(t)) && (t.Side? || NodeOf(t) != a)
  }

  /** t is a step on a link of the list, or below one. */
  ghost predicate Beyond(f: Forest, parent: seq<nat>, links: seq<Link>, t: Tag)
    requires ParentsOk(parent)
  {
    StepOk(f, t) && exists l :: l in links && Under(parent, l.target, NodeOf(t))
  }

  /** A list of different links from node a. */
  ghost predicate ChildLinks(f: Forest, parent: seq<nat>, a: nat, links: seq<Link>) {
    && a < |f| == |parent|
    && (forall l :: l in links ==> LinkOk(f, parent, a, l))
    && (forall j, k :: 0 <= j < k < |links| ==> links[j].target != links[k].target)
  }

  lemma ChildLinksTail(f: Forest, parent: seq<nat>, a: nat, links: seq<Link>)
    requires ChildLinks(f, parent, a, links) && 0 < |links|
    ensures ChildLinks(f, parent, a, links[1..]) && LinkOk(f, parent, a, links[0])
  {
  }

  lemma {:induction false} AtChildLinks(f: Forest, parent: seq<nat>, a: nat, links: seq<Link>, i: nat)
    requires ChildLinks(f, parent, a, links)
    ensures ChildLinks(f, parent, a, At(links, i))
  {
    if links != [] {
      ChildLinksTail(f, parent, a, links);
      AtChildLinks(f, parent, a, links[1..], i);
      var rest := At(links[1..], i);
      forall k | 0 <= k < |rest|
        ensures rest[k].target != links[0].target
      {
        AtOk(links[1..], i, rest[k]);
      }
    }
  }

  lemma TreeChildLinks(f: Forest, parent: seq<nat>, a: nat)
    requires Tree(f, parent) && a < |f|
    ensures ChildLinks(f, parent, a, f[a].links)
  {
    assert NodeOk(f, parent, a);
  }

  lemma {:induction false} OccDetours(f: Forest, parent: seq<nat>, a: nat, links: seq<Link>, x: int, y: int, t: Tag)
    requires Tree(f, parent) && ParentsOk(parent) && Ordered(f) && ChildLinks(f, parent, a, links)
             && LinksLater(f, a, links)
    ensures Occ(Detours(f, a, links, x, y), t) == if Beyond(f, parent, links, t) then 1 else 0
    decreases |f| - a, 0, |links|, 1
  {
    hide Tree, Ordered, Under, StepOk, Occ, Detour;
    if links == [] {
      assert Occ([], t) == 0 by { OccNone(t); }
    } else {
      ChildLinksTail(f, parent, a, links);
      OccDetour(f, parent, a, links[0], x, y, t);
      OccDetours(f, parent, a, links[1..], x, y, t);
      OccAppend(Detour(f, a, links[0], x, y), Detours(f, a, links[1..], x, y), t);
      BeyondCons(f, parent, a, links, t);
    }
  }

  lemma OccNone(t: Tag)
    ensures Occ([], t) == 0
  {
  }

  /** A step lies beyond one link of a list only. */
  lemma BeyondCons(f: Forest, parent: seq<nat>, a: nat, links: seq<Link>, t: Tag)
    requires ParentsOk(parent) && ChildLinks(f, parent, a, links) && 0 < |links|
    ensures Beyond(f, parent, [links[0]], t) ==> !Beyond(f, parent, links[1..], t)
    ensures Beyond(f, parent, links, t) <==> Beyond(f, parent, [links[0]], t) || Beyond(f, parent, links[1..], t)
  {
    hide Under, StepOk;
    if Beyond(f, parent, [links[0]], t) && Beyond(f, parent, links[1..], t) {
      var l :| l in links[1..] && Under(parent, l.target, NodeOf(t));
      var k :| 1 <= k < |links| && links[k] == l;
      assert LinkOk(f, parent, a, links[0]) && LinkOk(f, parent, a, links[k]);
      ChildrenApart(parent, links[0].target, l.target, NodeOf(t));
      assert false;
    }
    assert links == [links[0]] + links[1..];
  }

  lemma {:induction false} OccDetour(f: Forest, parent: seq<nat>, a: nat, l: Link, x: int, y: int, t: Tag)
    requires Tree(f, parent) && ParentsOk(parent) && Ordered(f) && a < |f| && LinkOk(f, parent, a, l) && a < l.target
    ensures Occ(Detour(f, a, l, x, y), t) == if Beyond(f, parent, [l], t) then 1 else 0
    decreases |f| - a, 0, 0, 0
  {
    hide Tree, Ordered;
    var c := l.target;
    var out := [Visit(Out(c), x, y, l.v)];
    var walk := Walk(f, c, x + l.v.dx, y + l.v.dy, l.index);
    var back := [Visit(Back(c), x + l.v.dx, y + l.v.dy, Vec(-l.v.dx, -l.v.dy))];
    OccWalk(f, parent, c, x + l.v.dx, y + l.v.dy, l.index, t);
    OccAppend(out + walk, back, t);
    OccAppend(out, walk, t);
    assert Beyond(f, parent, [l], t) <==> StepOk(f, t) && Under(parent, c, NodeOf(t)) by {
      assert l in [l];
    }
  }

  /** The walk below a node makes every step below it exactly once, and no others. */
  lemma {:induction false} OccWalk(f: Forest, parent: seq<nat>, a: nat, x: int, y: int, start: nat, t: Tag)
    requires Tree(f, parent) && ParentsOk(parent) && Ordered(f) && a < |f| && start < |f[a].poly|
    ensures Occ(Walk(f, a, x, y, start), t) == if Within(f, parent, a, t) then 1 else 0
    decreases |f| - a, 2, 0, 0
  {
    hide Tree, Ordered, Occ, WalkFrom;
    OccFrom(f, parent, a, x, y, start, |f[a].poly|, t);
    if Within(f, parent, a, t) {
      CornerOk(f, parent, a, t);
    }
  }

  ghost function ChildToward(parent: seq<nat>, a: nat, b: nat): (c: nat)
    requires ParentsOk(parent) && Under(parent, a, b) && a != b
    ensures 0 < c < |parent| && parent[c] == a && Under(parent, c, b)
    decreases b
  {
    if parent[b] == a then b else ChildToward(parent, a, parent[b])
  }

  ghost function LinkTo(f: Forest, a: nat, b: nat): (l: Link)
    requires HasLink(f, a, b)
    ensures l in f[a].links && l.target == b
  {
    var k :| 0 <= k < |f[a].links| && f[a].links[k].target == b;
    f[a].links[k]
  }

  /** The corner of polygon a at which the walk makes step t. */
  ghost function Corner(f: Forest, parent: seq<nat>, a: nat, t: Tag): nat
    requires Tree(f, parent) && Within(f, parent, a, t)
  {
    if NodeOf(t) == a then t.i else
      var c := ChildToward(parent, a, NodeOf(t));
      assert HasLink(f, parent[c], c);
      LinkTo(f, a, c).start
  }

  lemma CornerOk(f: Forest, parent: seq<nat>, a: nat, t: Tag)
    requires Tree(f, parent) && Within(f, parent, a, t) && a < |f|
    ensures Corner(f, parent, a, t) < |f[a].poly|
  {
    assert NodeOk(f, parent, a);
    if NodeOf(t) != a {
      var c := ChildToward(parent, a, NodeOf(t));
      assert HasLink(f, parent[c], c);
      assert LinkOk(f, parent, a, LinkTo(f, a, c));
    }
  }

  /** At corner i of polygon a the walk makes exactly the steps that belong there. */
  lemma {:induction false} BeyondCorner(f: Forest, parent: seq<nat>, a: nat, i: nat, t: Tag)
    requires Tree(f, parent) && a < |f| && i < |f[a].poly|
    ensures Beyond(f, parent, At(f[a].links, i), t)
            <==> Within(f, parent, a, t) && NodeOf(t) != a && Corner(f, parent, a, t) == i
    ensures t == Side(a, i) <==> Within(f, parent, a, t) && NodeOf(t) == a && Corner(f, parent, a, t) == i
  {
    TreeChildLinks(f, parent, a);
    if Beyond(f, parent, At(f[a].links, i), t) {
      var l :| l in At(f[a].links, i) && Under(parent, l.target, NodeOf(t));
      AtOk(f[a].links, i, l);
      assert LinkOk(f, parent, a, l);
      UnderStep(parent, a, l.target, NodeOf(t));
      SameCorner(f, parent, a, l, t);
    }
    if Within(f, parent, a, t) && NodeOf(t) != a && Corner(f, parent, a, t) == i {
      var c := ChildToward(parent, a, NodeOf(t));
      assert HasLink(f, parent[c], c);
      AtOk(f[a].links, i, LinkTo(f, a, c));
    }
  }

  lemma SameCorner(f: Forest, parent: seq<nat>, a: nat, l: Link, t: Tag)
    requires Tree(f, parent) && a < |f| && l in f[a].links && Within(f, parent, a, t) && NodeOf(t) != a
    requires 0 < l.target < |parent| && parent[l.target] == a && Under(parent, l.target, NodeOf(t))
    ensures Corner(f, parent, a, t) == l.start
  {
    var c := ChildToward(parent, a, NodeOf(t));
    if c != l.target {
      ChildrenApart(parent, c, l.target, NodeOf(t));
    }
    assert HasLink(f, parent[c], c);
    assert NodeOk(f, parent, a);
    var l' := LinkTo(f, a, c);
    var j :| 0 <= j < |f[a].links| && f[a].links[j] == l;
    var k :| 0 <= k < |f[a].links| && f[a].links[k] == l';
    assert j == k;
  }

  /** How many steps around a polygon of n corners lead from corner i to corner j. */
  function StepsTo(i: nat, j: nat, n: nat): int {
    if j >= i then j - i else j - i + n
  }

  lemma {:induction false} OccFrom(f: Forest, parent: seq<nat>, a: nat, x: int, y: int, i: nat, n: nat, t: Tag)
    requires Tree(f, parent) && ParentsOk(parent) && Ordered(f) && a < |f| && i < |f[a].poly| && n <= |f[a].poly|
    ensures Occ(WalkFrom(f, a, x, y, i, n), t)
         == if Within(f, parent, a, t) && StepsTo(i, Corner(f, parent, a, t), |f[a].poly|) < n then 1 else 0
    decreases |f| - a, 1, n, 0
  {
    hide Tree, Ordered, Occ, Detours, Corner, Within, At, Beyond;
    if Within(f, parent, a, t) {
      CornerOk(f, parent, a, t);
    }
    if n == 0 {
      OccNone(t);
    } else {
      var v := f[a].poly[i].v;
      LinksAtLater(f, a, i);
      TreeChildLinks(f, parent, a);
      AtChildLinks(f, parent, a, f[a].links, i);
      var here, side := Detours(f, a, At(f[a].links, i), x, y), [Visit(Side(a, i), x, y, v)];
      var rest := WalkFrom(f, a, x + v.dx, y + v.dy, NextIndex(i, |f[a].poly|), n - 1);
      OccDetours(f, parent, a, At(f[a].links, i), x, y, t);
      OccFrom(f, parent, a, x + v.dx, y + v.dy, NextIndex(i, |f[a].poly|), n - 1, t);
      OccAppend(here + side, rest, t);
      OccAppend(here, side, t);
      OccOne(Visit(Side(a, i), x, y, v), t);
      BeyondCorner(f, parent, a, i, t);
    }
  }

  lemma OccOne(v: Visit, t: Tag)
    ensures Occ([v], t) == if v.tag == t then 1 else 0
  {
  }

  /** The walk around the whole tree takes every polygon edge exactly once, and every link exactly once in
      each direction. */
  lemma EveryStepOnce(f: Forest, parent: seq<nat>, x: int, y: int, start: nat, t: Tag)
    requires Tree(f, parent) && ParentsOk(parent) && Ordered(f) && start < |f[0].poly|
    ensures Occ(Walk(f, 0, x, y, start), t) == if StepOk(f, t) then 1 else 0
  {
    OccWalk(f, parent, 0, x, y, start, t);
    if StepOk(f, t) {
      UnderRoot(parent, NodeOf(t));
    }
  }

  lemma {:induction false} UnderRoot(parent: seq<nat>, b: nat)
    requires ParentsOk(parent) && b < |parent|
    ensures Under(parent, 0, b)
    decreases b
  {
    if 0 < b {
      UnderRoot(parent, parent[b]);
    }
  }
}
