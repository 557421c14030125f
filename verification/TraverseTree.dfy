/** Polynode.traverse of mapconvert.py: it deletes the links it follows, and appends the outline of the
    whole tree to the result list. */
module TraverseTree {
  import opened Basics
  import opened BlockMap
  import opened TracePoly
  import opened LinkTree
  import opened Polynodes

  /** What traverse may rely on: the nodes are those of the tree. */
  ghost predicate Nodes(nodes: seq<Polynode>, f: Forest, parent: seq<nat>) {
    |nodes| == |f| == |parent| && Distinct(nodes) && Tree(f, parent) && ParentsOk(parent) && Ordered(f)
  }

  /** Halfway through node a: its links are those listed, and the nodes below them are untouched. */
  ghost predicate Halfway(nodes: seq<Polynode>, s: seq<Held>, f: Forest, parent: seq<nat>, a: nat, links: seq<Link>)
    requires Nodes(nodes, f, parent) && a < |nodes| == |s|
  {
    && Holds(nodes, s[a], f[a].poly, links) && ChildLinks(f, parent, a, links)
    && AllIntact(nodes, s, f, parent, links)
  }

  lemma HalfwayStart(nodes: seq<Polynode>, s: seq<Held>, f: Forest, parent: seq<nat>, a: nat)
    requires Nodes(nodes, f, parent) && a < |nodes| == |s| && Intact(nodes, s, f, parent, a)
    ensures Halfway(nodes, s, f, parent, a, f[a].links)
  {
    hide Tree, Ordered, Under, Holds;
    TreeChildLinks(f, parent, a);
    HoldsSelf(nodes, s, f, parent, a);
    forall l | l in f[a].links
      ensures Intact(nodes, s, f, parent, l.target)
    {
      assert LinkOk(f, parent, a, l);
      forall b: nat | b < |nodes| && Under(parent, l.target, b)
        ensures Holds(nodes, s[b], f[b].poly, f[b].links)
      {
        UnderStep(parent, a, l.target, b);
      }
    }
  }

  lemma HoldsSelf(nodes: seq<Polynode>, s: seq<Held>, f: Forest, parent: seq<nat>, a: nat)
    requires ParentsOk(parent) && |f| == |s| == |parent| && a < |s| && Intact(nodes, s, f, parent, a)
    ensures Holds(nodes, s[a], f[a].poly, f[a].links)
  {
    assert Under(parent, a, a);
  }

  lemma LaterLinks(nodes: seq<Polynode>, f: Forest, parent: seq<nat>, a: nat, links: seq<Link>)
    requires Nodes(nodes, f, parent) && ChildLinks(f, parent, a, links)
    ensures LinksLater(f, a, links)
  {
  }

  /** Visiting the tree below one link leaves the node itself and the trees below its other links alone. */
  lemma OthersUntouched(nodes: seq<Polynode>, s: seq<Held>, s': seq<Held>, f: Forest, parent: seq<nat>, a: nat,
                        links: seq<Link>, j: nat)
    requires Nodes(nodes, f, parent) && a < |nodes| == |s| && j < |links| && Halfway(nodes, s, f, parent, a, links)
    requires OnlyBelow(s, s', parent, links[j].target)
    ensures |s'| == |s| && s'[a] == s[a] && OnlyBelow(s, s', parent, a)
    ensures AllIntact(nodes, s', f, parent, links[..j] + links[j + 1..])
  {
    hide Tree, Ordered, Under;
    var c := links[j].target;
    var rest := links[..j] + links[j + 1..];
    assert links[j] in links && LinkOk(f, parent, a, links[j]);
    LinksWithout(f, parent, a, links, j);
    forall b: nat | b < |nodes| && Under(parent, c, b)
      ensures Under(parent, a, b) && a < b
    {
      UnderStep(parent, a, c, b);
    }
    forall l | l in rest
      ensures Intact(nodes, s', f, parent, l.target)
    {
      assert LinkOk(f, parent, a, l) && Intact(nodes, s, f, parent, l.target);
      forall b: nat | b < |nodes| && Under(parent, l.target, b)
        ensures Holds(nodes, s'[b], f[b].poly, f[b].links)
      {
        ChildrenApart(parent, l.target, c, b);
      }
    }
  }

  /** Deleting a link from the node itself keeps the trees below the others. */
  lemma LinkDropped(nodes: seq<Polynode>, s: seq<Held>, s': seq<Held>, f: Forest, parent: seq<nat>, a: nat,
                    links: seq<Link>, rest: seq<Link>)
    requires Nodes(nodes, f, parent) && a < |nodes| == |s| && AllIntact(nodes, s, f, parent, rest)
    requires ChildLinks(f, parent, a, rest)
    requires |s'| == |s| && (forall b: nat :: b < |s| && b != a ==> s'[b] == s[b])
             && Holds(nodes, s'[a], f[a].poly, rest)
    ensures Halfway(nodes, s', f, parent, a, rest) && OnlyBelow(s, s', parent, a)
  {
    hide Tree, Ordered, Holds;
    assert Under(parent, a, a);
    forall l | l in rest
      ensures Intact(nodes, s', f, parent, l.target)
    {
      assert LinkOk(f, parent, a, l) && Intact(nodes, s, f, parent, l.target);
      forall b: nat | b < |nodes| && Under(parent, l.target, b)
        ensures Holds(nodes, s'[b], f[b].poly, f[b].links)
      {
        UnderOrder(parent, l.target, b);
      }
    }
  }

  lemma LinksWithout(f: Forest, parent: seq<nat>, a: nat, links: seq<Link>, j: nat)
    requires ChildLinks(f, parent, a, links) && j < |links|
    ensures ChildLinks(f, parent, a, links[..j] + links[j + 1..])
    ensures forall l :: l in links[..j] + links[j + 1..] ==> l in links && l.target != links[j].target
  {
    var rest := links[..j] + links[j + 1..];
    forall k | 0 <= k < |rest|
      ensures rest[k] == links[if k < j then k else k + 1]
    {
    }
  }

  /** Delete link j from both lists. */
  method DropLink(node: Polynode, j: nat, ghost nodes: seq<Polynode>, ghost poly: Polygon, ghost a: nat,
                  ghost links: seq<Link>)
    requires a < |nodes| && node == nodes[a] && j < |links| && Distinct(nodes)
    requires Holds(nodes, Contents(node), poly, links)
    modifies node
    ensures Holds(nodes, Contents(node), poly, links[..j] + links[j + 1..])
    ensures State(nodes) == old(State(nodes))[a := Contents(node)]
  {
    node.linkstarts := node.linkstarts[..j] + node.linkstarts[j + 1..];
    node.linktargets := node.linktargets[..j] + node.linktargets[j + 1..];
  }

  /** Follow the first link at corner i: go there, around the tree below, and back, and delete the link. */
  method FollowLink(node: Polynode, i: nat, x: int, y: int, reslist: seq<Entry>, j: nat,
                    ghost nodes: seq<Polynode>, ghost f: Forest, ghost parent: seq<nat>, ghost a: nat,
                    ghost links: seq<Link>)
    returns (res: seq<Entry>)
    requires Nodes(nodes, f, parent) && a < |nodes| && node == nodes[a]
             && Halfway(nodes, State(nodes), f, parent, a, links)
    requires j < |links| && links[j].start == i
    modifies nodes
    ensures a < links[j].target < |f| && links[j].index < |f[links[j].target].poly|
            && res == reslist + EntriesOf(Detour(f, a, links[j], x, y))
    ensures Halfway(nodes, State(nodes), f, parent, a, links[..j] + links[j + 1..])
    ensures OnlyBelow(old(State(nodes)), State(nodes), parent, a)
    decreases |f| - a, 0, 0
  {
    hide Tree, Ordered, Under, Walk, Intact, Halfway, OnlyBelow, Holds;
    ghost var s0 := State(nodes);
    LinkAt(nodes, f, parent, a, links, j);
    var lt := node.linktargets[j];
    ghost var c := links[j].target;
    res := reslist + [Entry(x, y, Vec(lt.dx, lt.dy), true)];
    ghost var res1 := res;
    res := Traverse(lt.node, x + lt.dx, y + lt.dy, lt.index, res, nodes, f, parent, c);
    res := res + [Entry(x + lt.dx, y + lt.dy, Vec(-lt.dx, -lt.dy), true)];
    ghost var s1 := State(nodes);
    OthersUntouched(nodes, s0, s1, f, parent, a, links, j);
    DropLink(node, j, nodes, f[a].poly, a, links);
    LinksWithout(f, parent, a, links, j);
    LinkDropped(nodes, s1, State(nodes), f, parent, a, links, links[..j] + links[j + 1..]);
    BelowTwice(s0, s1, State(nodes), parent, a);
    EntriesAppend([Visit(Out(c), x, y, links[j].v)], Walk(f, c, x + lt.dx, y + lt.dy, lt.index));
  }

  lemma BelowSelf(s: seq<Held>, parent: seq<nat>, a: nat)
    requires ParentsOk(parent)
    ensures OnlyBelow(s, s, parent, a)
  {
  }

  lemma BelowTwice(s0: seq<Held>, s1: seq<Held>, s2: seq<Held>, parent: seq<nat>, a: nat)
    requires ParentsOk(parent) && OnlyBelow(s0, s1, parent, a) && OnlyBelow(s1, s2, parent, a)
    ensures OnlyBelow(s0, s2, parent, a)
  {
    hide Under;
  }

  lemma LinkAt(nodes: seq<Polynode>, f: Forest, parent: seq<nat>, a: nat, links: seq<Link>, j: nat)
    requires Nodes(nodes, f, parent) && a < |nodes| && Halfway(nodes, State(nodes), f, parent, a, links) && j < |links|
    ensures var l := links[j];
            && a < l.target < |nodes| && l.index < |f[l.target].poly|
            && |nodes[a].linkstarts| == |nodes[a].linktargets| == |links|
            && nodes[a].linkstarts[j] == l.start
            && nodes[a].linktargets[j] == Target(nodes[l.target], l.index, l.v.dx, l.v.dy)
            && Intact(nodes, State(nodes), f, parent, l.target) && Holds(nodes, Contents(nodes[a]), f[a].poly, links)
            && ChildLinks(f, parent, a, links)
  {
    assert links[j] in links && LinkOk(f, parent, a, links[j]);
  }

  /** With the links `rest` left of `links`, what is left to emit at corner i completes the result. */
  ghost predicate Following(f: Forest, a: nat, links: seq<Link>, rest: seq<Link>, i: nat, x: int, y: int,
                            reslist: seq<Entry>, res: seq<Entry>)
    requires Ordered(f) && a < |f|
  {
    && LinksLater(f, a, At(links, i)) && LinksLater(f, a, At(rest, i))
    && res + EntriesOf(Detours(f, a, At(rest, i), x, y)) == reslist + EntriesOf(Detours(f, a, At(links, i), x, y))
    && forall k: nat :: k != i ==> At(rest, k) == At(links, k)
  }

  lemma FollowStep(f: Forest, a: nat, links: seq<Link>, rest: seq<Link>, j: nat, i: nat, x: int, y: int,
                   reslist: seq<Entry>, res: seq<Entry>)
    requires Ordered(f) && a < |f| && Following(f, a, links, rest, i, x, y, reslist, res) && j < |rest|
    requires rest[j].start == i && forall k :: 0 <= k < j ==> rest[k].start != i
    requires LinksLater(f, a, At(rest[..j] + rest[j + 1..], i)) && a < rest[j].target < |f|
             && rest[j].index < |f[rest[j].target].poly|
    ensures Following(f, a, links, rest[..j] + rest[j + 1..], i, x, y, reslist,
                      res + EntriesOf(Detour(f, a, rest[j], x, y)))
  {
    hide Ordered, Detour, Detours, At, LinksLater;
    var less := rest[..j] + rest[j + 1..];
    forall k: nat
      ensures k != i ==> At(less, k) == At(rest, k)
      ensures At(rest, i) == [rest[j]] + At(less, i)
    {
      AtRemove(rest, i, j, k);
    }
    DetoursCons(f, a, rest[j], At(less, i), x, y);
    Associative(res, EntriesOf(Detour(f, a, rest[j], x, y)), EntriesOf(Detours(f, a, At(less, i), x, y)));
  }

  lemma Associative(a: seq<Entry>, b: seq<Entry>, c: seq<Entry>)
    ensures a + b + c == a + (b + c)
  {
  }

  lemma FollowEnd(f: Forest, a: nat, links: seq<Link>, rest: seq<Link>, i: nat, x: int, y: int,
                  reslist: seq<Entry>, res: seq<Entry>)
    requires Ordered(f) && a < |f| && Following(f, a, links, rest, i, x, y, reslist, res)
    requires forall k :: 0 <= k < |rest| ==> rest[k].start != i
    ensures LinksLater(f, a, At(links, i)) && res == reslist + EntriesOf(Detours(f, a, At(links, i), x, y))
    ensures forall k: nat :: At(rest, k) == if k == i then [] else At(links, k)
  {
    hide Ordered, Detours, At, LinksLater;
    AtNone(rest, i);
    DetoursNone(f, a, x, y);
  }

  /** Follow all links at corner i. */
  method FollowLinks(node: Polynode, i: nat, x: int, y: int, reslist: seq<Entry>,
                     ghost nodes: seq<Polynode>, ghost f: Forest, ghost parent: seq<nat>, ghost a: nat,
                     ghost links: seq<Link>)
    returns (res: seq<Entry>, ghost rest: seq<Link>)
    requires Nodes(nodes, f, parent) && a < |nodes| && node == nodes[a]
             && Halfway(nodes, State(nodes), f, parent, a, links)
    modifies nodes
    ensures LinksLater(f, a, At(links, i)) && res == reslist + EntriesOf(Detours(f, a, At(links, i), x, y))
    ensures Halfway(nodes, State(nodes), f, parent, a, rest)
    ensures forall k: nat :: At(rest, k) == if k == i then [] else At(links, k)
    ensures OnlyBelow(old(State(nodes)), State(nodes), parent, a)
    decreases |f| - a, 1, 0
  {
    hide Tree, Ordered, Under, Detour, Detours, At, Halfway, OnlyBelow, LinksLater, Distinct, ParentsOk, Following,
         EntriesOf;
    res, rest := reslist, links;
    LaterAt(nodes, f, parent, a, links, i);
    HeldLinks(nodes, f, parent, a, rest);
    BelowSelf(State(nodes), parent, a);
    FollowStart(f, a, links, i, x, y, reslist);
    var j: nat := IndexOf(node.linkstarts, i);
    while j < |node.linkstarts|
      invariant Halfway(nodes, State(nodes), f, parent, a, rest)
                && OnlyBelow(old(State(nodes)), State(nodes), parent, a)
      invariant |node.linkstarts| == |rest| && forall k :: 0 <= k < |rest| ==> node.linkstarts[k] == rest[k].start
      invariant j <= |rest| && (j < |rest| ==> rest[j].start == i) && forall k :: 0 <= k < j ==> rest[k].start != i
      invariant Following(f, a, links, rest, i, x, y, reslist, res)
      decreases |rest|
    {
      ghost var before, res1 := rest, res;
      ghost var s1 := State(nodes);
      res := FollowLink(node, i, x, y, res, j, nodes, f, parent, a, rest);
      BelowTwice(old(State(nodes)), s1, State(nodes), parent, a);
      rest := rest[..j] + rest[j + 1..];
      LaterAt(nodes, f, parent, a, rest, i);
      HeldLinks(nodes, f, parent, a, rest);
      FollowStep(f, a, links, before, j, i, x, y, reslist, res1);
      j := IndexOf(node.linkstarts, i);
    }
    FollowEnd(f, a, links, rest, i, x, y, reslist, res);
  }

  lemma FollowStart(f: Forest, a: nat, links: seq<Link>, i: nat, x: int, y: int, reslist: seq<Entry>)
    requires Ordered(f) && a < |f| && LinksLater(f, a, At(links, i))
    ensures Following(f, a, links, links, i, x, y, reslist, reslist)
  {
    hide Ordered, Detours, At, LinksLater;
  }

  lemma LaterAt(nodes: seq<Polynode>, f: Forest, parent: seq<nat>, a: nat, links: seq<Link>, i: nat)
    requires Nodes(nodes, f, parent) && a < |nodes| && Halfway(nodes, State(nodes), f, parent, a, links)
    ensures LinksLater(f, a, At(links, i))
  {
    hide Tree, Ordered;
    AtChildLinks(f, parent, a, links, i);
    LaterLinks(nodes, f, parent, a, At(links, i));
  }

  lemma HeldLinks(nodes: seq<Polynode>, f: Forest, parent: seq<nat>, a: nat, links: seq<Link>)
    requires Nodes(nodes, f, parent) && a < |nodes| && Halfway(nodes, State(nodes), f, parent, a, links)
    ensures |nodes[a].linkstarts| == |links| && forall k :: 0 <= k < |links| ==>
            nodes[a].linkstarts[k] == links[k].start
    ensures nodes[a].poly == f[a].poly
  {
  }

  lemma DetoursNone(f: Forest, a: nat, x: int, y: int)
    requires Ordered(f) && a < |f|
    ensures LinksLater(f, a, []) && EntriesOf(Detours(f, a, [], x, y)) == []
  {
  }

  lemma DetoursCons(f: Forest, a: nat, l: Link, rest: seq<Link>, x: int, y: int)
    requires Ordered(f) && a < |f| && LinksLater(f, a, [l] + rest) && LinksLater(f, a, rest) && a < l.target
    ensures EntriesOf(Detours(f, a, [l] + rest, x, y))
            == EntriesOf(Detour(f, a, l, x, y)) + EntriesOf(Detours(f, a, rest, x, y))
  {
    hide Ordered, Detour;
    assert l in [l] + rest;
    assert ([l] + rest)[1..] == rest;
    EntriesAppend(Detour(f, a, l, x, y), Detours(f, a, rest, x, y));
  }

  /** The links met at the corners already visited are gone, the others are left. */
  ghost predicate LinksLeft(links: seq<Link>, rest: seq<Link>, start: nat, n: nat, done: int) {
    forall k: nat :: k < n ==> At(rest, k) == if StepsTo(start, k, n) < done then [] else At(links, k)
  }

  /** Polynode.traverse. */
  method Traverse(node: Polynode, x0: int, y0: int, start: nat, reslist: seq<Entry>,
                  ghost nodes: seq<Polynode>, ghost f: Forest, ghost parent: seq<nat>, ghost a: nat)
    returns (res: seq<Entry>)
    requires Nodes(nodes, f, parent) && a < |nodes| && node == nodes[a] && start < |f[a].poly|
    requires Intact(nodes, State(nodes), f, parent, a)
    modifies nodes
    ensures res == reslist + EntriesOf(Walk(f, a, x0, y0, start))
    ensures OnlyBelow(old(State(nodes)), State(nodes), parent, a)
    decreases |f| - a, 2, 0
  {
    hide Tree, Ordered, Under, At, Halfway, Detours, WalkFrom, Intact, OnlyBelow, LinksLater, LinksLeft, Distinct,
         ParentsOk;
    HalfwayStart(nodes, State(nodes), f, parent, a);
    ghost var links, rest := f[a].links, f[a].links;
    HeldLinks(nodes, f, parent, a, rest);
    var n := |node.poly|;
    ghost var done := 0;
    res := reslist;
    BelowSelf(State(nodes), parent, a);
    var i: nat, x, y := start, x0, y0;
    LeftStart(links, start, n);
    while true
      invariant 0 <= done < n && i < n && StepsTo(start, i, n) == done && n == |f[a].poly|
      invariant Halfway(nodes, State(nodes), f, parent, a, rest)
                && OnlyBelow(old(State(nodes)), State(nodes), parent, a)
      invariant LinksLeft(links, rest, start, n, done)
      invariant res + EntriesOf(WalkFrom(f, a, x, y, i, n - done)) == reslist + EntriesOf(Walk(f, a, x0, y0, start))
      decreases n - done
    {
      ghost var before := rest;
      ghost var s1 := State(nodes);
      res, rest := FollowLinks(node, i, x, y, res, nodes, f, parent, a, rest);
      BelowTwice(old(State(nodes)), s1, State(nodes), parent, a);
      var v := node.poly[i].v;
      res := res + [Entry(x, y, v, false)];
      LinksAtLater(f, a, i);
      WalkStep(f, a, x, y, i, n - done);
      LeftStep(links, before, rest, start, n, done, i);
      x := x + v.dx;
      y := y + v.dy;
      i := NextIndex(i, n);
      done := done + 1;
      if i == start {
        break;
      }
    }
    WalkEnd(f, a, x, y, i);
  }

  lemma WalkEnd(f: Forest, a: nat, x: int, y: int, i: nat)
    requires Ordered(f) && a < |f| && i < |f[a].poly|
    ensures EntriesOf(WalkFrom(f, a, x, y, i, 0)) == []
  {
  }

  lemma WalkStep(f: Forest, a: nat, x: int, y: int, i: nat, n: nat)
    requires Ordered(f) && a < |f| && i < |f[a].poly| && 0 < n && LinksLater(f, a, At(f[a].links, i))
    ensures var v := f[a].poly[i].v;
            EntriesOf(WalkFrom(f, a, x, y, i, n)) ==
            EntriesOf(Detours(f, a, At(f[a].links, i), x, y)) + [Entry(x, y, v, false)]
            + EntriesOf(WalkFrom(f, a, x + v.dx, y + v.dy, NextIndex(i, |f[a].poly|), n - 1))
  {
    hide Ordered, Detours;
  }

  lemma LeftStart(links: seq<Link>, start: nat, n: nat)
    requires start < n
    ensures LinksLeft(links, links, start, n, 0)
  {
    hide At;
  }

  lemma LeftStep(links: seq<Link>, before: seq<Link>, rest: seq<Link>, start: nat, n: nat, done: int, i: nat)
    requires LinksLeft(links, before, start, n, done) && start < n && i < n && StepsTo(start, i, n) == done
    requires forall k: nat :: At(rest, k) == if k == i then [] else At(before, k)
    ensures LinksLeft(links, rest, start, n, done + 1) && At(before, i) == At(links, i)
  {
    hide At;
  }
}
