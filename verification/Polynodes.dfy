/** The class Polynode of mapconvert.py and its traverse method. */
module Polynodes {
  import opened BlockMap
  import opened TracePoly
  import opened LinkTree

  /** Where a link leads: a corner of another node, at offset (dx, dy). */
  datatype Target = Target(node: Polynode, index: nat, dx: int, dy: int)

  /** The closest pair of points found so far: squared distance, the corner of the node `from`, the corner
      of this node, and the offset between them. */
  datatype Reach = Reach(d: int, k: nat, l: nat, dx: int, dy: int, from: Polynode?)

  class Polynode {
    const poly: Polygon
    var linkstarts: seq<nat>
    var linktargets: seq<Target>
    var dist: Reach

    constructor (poly: Polygon, far: int)
      ensures this.poly == poly && linkstarts == [] && linktargets == [] && dist == Reach(far, 0, 0, 0, 0, null)
    {
      this.poly := poly;
      linkstarts, linktargets, dist := [], [], Reach(far, 0, 0, 0, 0, null);
    }
  }

  /** An entry of the resulting outline; `link` marks the invisible edges along links. */
  datatype Entry = Entry(x: int, y: int, v: Vec, link: bool)

  function EntryOf(v: Visit): Entry {
    Entry(v.x, v.y, v.v, !v.tag.Side?)
  }

  function EntriesOf(s: seq<Visit>): (r: seq<Entry>)
    ensures |r| == |s| && forall i :: 0 <= i < |s| ==> r[i] == EntryOf(s[i])
  {
    seq(|s|, i requires 0 <= i < |s| => EntryOf(s[i]))
  }

  lemma EntriesAppend(s: seq<Visit>, s': seq<Visit>)
    ensures EntriesOf(s + s') == EntriesOf(s) + EntriesOf(s')
  {
  }

  ghost predicate TargetIs(nodes: seq<Polynode>, t: Target, l: Link) {
    l.target < |nodes| && t == Target(nodes[l.target], l.index, l.v.dx, l.v.dy)
  }

  /** What a node holds. */
  datatype Held = Held(poly: Polygon, linkstarts: seq<nat>, linktargets: seq<Target>)

  ghost function Contents(n: Polynode): Held
    reads n
  {
    Held(n.poly, n.linkstarts, n.linktargets)
  }

  /** What all nodes hold. */
  ghost function State(nodes: seq<Polynode>): (s: seq<Held>)
    reads nodes
    ensures |s| == |nodes| && forall a :: 0 <= a < |s| ==> s[a] == Contents(nodes[a])
  {
    seq(|nodes|, a requires 0 <= a < |nodes| reads nodes => Contents(nodes[a]))
  }

  /** A node holds this polygon and these links. */
  ghost predicate Holds(nodes: seq<Polynode>, n: Held, poly: Polygon, links: seq<Link>) {
    && n.poly == poly && |n.linkstarts| == |n.linktargets| == |links|
    && forall k :: 0 <= k < |links| ==> n.linkstarts[k] == links[k].start && TargetIs(nodes, n.linktargets[k], links[k])
  }

  /** Node c and all nodes below it hold what the tree says. */
  ghost predicate Intact(nodes: seq<Polynode>, s: seq<Held>, f: Forest, parent: seq<nat>, c: nat)
    requires ParentsOk(parent) && |f| == |s|
  {
    forall b: nat :: b < |s| && Under(parent, c, b) ==> Holds(nodes, s[b], f[b].poly, f[b].links)
  }

  ghost predicate AllIntact(nodes: seq<Polynode>, s: seq<Held>, f: Forest, parent: seq<nat>, links: seq<Link>)
    requires ParentsOk(parent) && |f| == |s|
  {
    forall l :: l in links ==> Intact(nodes, s, f, parent, l.target)
  }

  /** Nothing changed except below node a. */
  ghost predicate OnlyBelow(s: seq<Held>, s': seq<Held>, parent: seq<nat>, a: nat)
    requires ParentsOk(parent)
  {
    |s| == |s'| && forall b: nat :: b < |s| && !Under(parent, a, b) ==> s[b] == s'[b]
  }

  lemma {:induction false} AtRemove(links: seq<Link>, i: nat, j: nat, i': nat)
    requires j < |links| && links[j].start == i && forall k :: 0 <= k < j ==> links[k].start != i
    ensures At(links, i) == [links[j]] + At(links[..j] + links[j + 1..], i)
    ensures i' != i ==> At(links[..j] + links[j + 1..], i') == At(links, i')
  {
    var rest := links[..j] + links[j + 1..];
    if j == 0 {
      assert rest == links[1..];
    } else {
      assert rest[1..] == links[1..][..j - 1] + links[1..][j..];
      AtRemove(links[1..], i, j - 1, i');
      assert rest[0] == links[0];
    }
  }

  lemma {:induction false} AtNone(links: seq<Link>, i: nat)
    requires forall k :: 0 <= k < |links| ==> links[k].start != i
    ensures At(links, i) == []
  {
    if links != [] {
      AtNone(links[1..], i);
    }
  }

  method IndexOf(s: seq<nat>, i: nat) returns (j: nat)
    ensures j <= |s| && (j < |s| ==> s[j] == i) && forall k :: 0 <= k < j ==> s[k] != i
  {
    j := 0;
    while j < |s| && s[j] != i
      invariant 0 <= j <= |s| && forall k :: 0 <= k < j ==> s[k] != i
    {
      j := j + 1;
    }
  }
}
