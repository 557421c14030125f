/** The mathematics behind the ship outline graph: a multigraph without self-loops, trails that use
    each edge at most once, the parity argument, and connectedness of the edges. */
module Multigraph {

  /** ends: the two end points of every edge.  star: the edges at every vertex, in order. */
  datatype Shape<V(==), E(==)> = Shape(ends: map<E, (V, V)>, star: map<V, seq<E>>) {

    ghost predicate Touches(e: E, v: V) {
      e in ends && (ends[e].0 == v || ends[e].1 == v)
    }

    ghost predicate Joins(e: E, a: V, b: V) {
      e in ends && (ends[e] == (a, b) || ends[e] == (b, a))
    }

    ghost predicate EdgeOk(e: E)
      requires e in ends
    {
      && ends[e].0 != ends[e].1
      && ends[e].0 in star && e in star[ends[e].0]
      && ends[e].1 in star && e in star[ends[e].1]
    }

    ghost predicate VertexOk(v: V)
      requires v in star
    {
      && star[v] != []
      && (forall i, j :: 0 <= i < j < |star[v]| ==> star[v][i] != star[v][j])
      && (forall e :: e in star[v] ==> Touches(e, v))
    }

    /** Consistent incidence lists, no self-loop, no isolated vertex. */
    ghost predicate Ok() {
      (forall e :: e in ends ==> EdgeOk(e)) && (forall v :: v in star ==> VertexOk(v))
    }

    ghost function Star(v: V): set<E>
      requires v in star
    {
      set e | e in star[v]
    }

    /** The end of e that is not v. */
    function Other(e: E, v: V): V
      requires e in ends
    {
      if ends[e].0 == v then ends[e].1 else ends[e].0
    }

    /** How many edges of u are at v. */
    ghost function Degree(u: set<E>, v: V): nat
      requires v in star
    {
      |Star(v) * u|
    }

    /** In u the odd vertices are exactly c and t, or none if c and t are the same. */
    ghost predicate OddOnly(u: set<E>, c: V, t: V) {
      forall v :: v in star ==> OddAt(u, c, t, v)
    }

    ghost predicate OddAt(u: set<E>, c: V, t: V, v: V)
      requires v in star
    {
      Degree(u, v) % 2 == 1 <==> c != t && (v == c || v == t)
    }

    ghost predicate Adjacent(e: E, f: E)
      requires e in ends && f in ends
    {
      Touches(f, ends[e].0) || Touches(f, ends[e].1)
    }

    /** A set of edges that contains every edge sharing a vertex with one of its edges. */
    ghost predicate Closed(s: set<E>) {
      s <= ends.Keys && forall e, f :: e in s && f in ends && Adjacent(e, f) ==> f in s
    }

    /** The edges cannot be split into two non-empty groups that share no vertex. */
    ghost predicate Connected() {
      forall s | s <= ends.Keys :: s != {} && Closed(s) ==> s == ends.Keys
    }

    /** s is the connected component of edge e: the least closed set containing it. */
    ghost predicate Component(e: E, s: set<E>) {
      && e in s && Closed(s)
      && forall t | t <= ends.Keys :: e in t && Closed(t) ==> s <= t
    }

    ghost predicate StepJoins(p: seq<V>, q: seq<E>, i: nat)
      requires i < |q| && i + 1 < |p|
    {
      Joins(q[i], p[i], p[i + 1])
    }

    /** A walk along the vertices p by the edges q, using no edge twice. */
    ghost predicate Trail(p: seq<V>, q: seq<E>) {
      && |p| == |q| + 1
      && (forall i :: 0 <= i < |q| ==> StepJoins(p, q, i))
      && (forall i, j :: 0 <= i < j < |q| ==> q[i] != q[j])
    }
  }

  ghost function Elems<T>(s: seq<T>): set<T> {
    set x | x in s
  }

  // ---------------------------------------------------------------- parity

  lemma DegreeRemove<V, E>(g: Shape<V, E>, u: set<E>, e: E, v: V)
    requires g.Ok() && v in g.star && e in u && e in g.ends
    ensures g.Degree(u - {e}, v) == g.Degree(u, v) - if g.Touches(e, v) then 1 else 0
  {
    assert g.VertexOk(v) && g.EdgeOk(e);
    assert g.Star(v) * (u - {e}) == g.Star(v) * u - {e};
  }

  lemma StepParityAt<V, E>(g: Shape<V, E>, u: set<E>, c: V, t: V, e: E, w: V, v: V)
    requires g.Ok() && v in g.star && g.OddAt(u, c, t, v) && e in u && e in g.ends
    requires g.Touches(e, c) && w == g.Other(e, c) && w != c
    ensures g.OddAt(u - {e}, w, t, v)
  {
    hide Shape.Ok, Shape.Degree;
    DegreeRemove(g, u, e, v);
  }

  /** Walking an unused edge from c moves the odd vertex c to its other end. */
  lemma StepParity<V, E>(g: Shape<V, E>, u: set<E>, c: V, t: V, e: E)
    requires g.Ok() && g.OddOnly(u, c, t) && c in g.star && e in u && e in g.star[c]
    ensures var w := g.Other(e, c); e in g.ends && w in g.star && w != c && g.Joins(e, c, w) && g.OddOnly(u - {e}, w, t)
  {
    hide Shape.OddAt;
    assert g.VertexOk(c) && g.Touches(e, c) && g.EdgeOk(e);
    var w := g.Other(e, c);
    forall v | v in g.star
      ensures g.OddAt(u - {e}, w, t, v)
    {
      assert g.OddAt(u, c, t, v);
      StepParityAt(g, u, c, t, e, w, v);
    }
  }

  /** Where no unused edge is left, the walk has come home. */
  lemma StuckIsHome<V, E>(g: Shape<V, E>, u: set<E>, c: V, t: V)
    requires g.OddOnly(u, c, t) && c in g.star && g.Star(c) * u == {}
    ensures c == t
  {
    assert g.OddAt(u, c, t, c);
  }

  // ---------------------------------------------------------------- trails

  lemma TrailExtend<V, E>(g: Shape<V, E>, p: seq<V>, q: seq<E>, e: E, w: V)
    requires g.Trail(p, q) && e !in q && g.Joins(e, p[|p| - 1], w)
    ensures g.Trail(p + [w], q + [e])
  {
    forall i | 0 <= i < |q + [e]|
      ensures g.StepJoins(p + [w], q + [e], i)
    {
      assert i < |q| ==> g.StepJoins(p, q, i);
    }
  }

  lemma TrailJoin<V, E>(g: Shape<V, E>, p: seq<V>, q: seq<E>, e: E, p': seq<V>, q': seq<E>)
    requires g.Trail(p, q) && g.Trail(p', q') && g.Joins(e, p[|p| - 1], p'[0])
    requires e !in q && e !in q' && Elems(q) !! Elems(q')
    ensures g.Trail(p + p', q + [e] + q')
  {
    var r := q + [e] + q';
    forall i | 0 <= i < |r|
      ensures g.StepJoins(p + p', r, i)
    {
      if i < |q| {
        assert g.StepJoins(p, q, i);
      } else if |q| < i {
        assert g.StepJoins(p', q', i - |q| - 1);
      }
    }
    forall i, j | 0 <= i < j < |r|
      ensures r[i] != r[j]
    {
      assert i < |q| ==> r[i] in Elems(q);
      assert |q| < j ==> r[j] in Elems(q');
    }
  }

  /** Both ends of a trail's edge are on the trail. */
  lemma TrailEnds<V, E>(g: Shape<V, E>, p: seq<V>, q: seq<E>, e: E)
    requires g.Trail(p, q) && e in q
    ensures e in g.ends && g.ends[e].0 in p && g.ends[e].1 in p
  {
    var i :| 0 <= i < |q| && q[i] == e;
    assert g.StepJoins(p, q, i);
  }

  /** In a connected graph, a trail that leaves no unused edge at any of its vertices uses them all. */
  lemma TrailCoversAll<V, E>(g: Shape<V, E>, p: seq<V>, q: seq<E>, u: set<E>)
    requires g.Ok() && g.Connected() && g.Trail(p, q) && p[0] in g.star
    requires Elems(q) + u == g.ends.Keys
    requires forall v :: v in p ==> v in g.star && g.Star(v) * u == {}
    ensures u == {}
  {
    var s := set e | e in g.ends && (g.ends[e].0 in p || g.ends[e].1 in p);
    forall e | e in s
      ensures e !in u && g.ends[e].0 in p && g.ends[e].1 in p
    {
      assert g.EdgeOk(e);
      var v := if g.ends[e].0 in p then g.ends[e].0 else g.ends[e].1;
      assert e in g.Star(v) && e !in g.Star(v) * u;
      assert e in Elems(q) + u;
      TrailEnds(g, p, q, e);
    }
    assert g.Closed(s);
    var e := g.star[p[0]][0];
    assert g.VertexOk(p[0]) && g.Touches(e, p[0]);
    assert e in s;
  }
}
