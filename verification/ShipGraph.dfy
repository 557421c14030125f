/** The outline of a ship as a graph of heap objects: Vertex, Edge and Graph, compared by identity. */
module ShipGraph {
  import opened Basics
  import opened Multigraph

  /** java.util.Vector, as far as the graph code uses it.  Elements are compared by identity. */
  class Vector<T(==)> {
    var items: seq<T>

    constructor (s: seq<T>)
      ensures items == s
    {
      items := s;
    }

    predicate Contains(x: T)
      reads this
    {
      x in items
    }

    method AddElement(x: T)
      modifies this
      ensures items == old(items) + [x]
    {
      items := items + [x];
    }

    /** Remove the first occurrence of x, if there is one. */
    method RemoveElement(x: T)
      modifies this
      ensures items == Without(old(items), x)
    {
      var i := 0;
      while i < |items| && items[i] != x
        invariant 0 <= i <= |items| && items == old(items)
        invariant Without(items, x) == items[..i] + Without(items[i..], x)
      {
        assert items[i..][1..] == items[i + 1..];
        i := i + 1;
      }
      if i < |items| {
        assert items[i..][1..] == items[i + 1..];
        items := items[..i] + items[i + 1..];
      }
    }
  }

  function Without<T(==)>(s: seq<T>, x: T): seq<T> {
    if s == [] then []
    else if s[0] == x then s[1..]
    else [s[0]] + Without(s[1..], x)
  }

  lemma {:induction false} WithoutDistinct<T>(s: seq<T>, x: T)
    requires Distinct(s)
    ensures Distinct(Without(s, x)) && Elems(Without(s, x)) == Elems(s) - {x}
    ensures |Without(s, x)| == if x in s then |s| - 1 else |s|
  {
    if s != [] {
      WithoutDistinct(s[1..], x);
      assert Elems(s) == {s[0]} + Elems(s[1..]);
      assert s[0] !in s[1..];
      assert Elems([s[0]] + Without(s[1..], x)) == {s[0]} + Elems(Without(s[1..], x));
      assert forall y :: y in Without(s[1..], x) ==> y in Elems(Without(s[1..], x));
    }
  }

  lemma {:induction false} DistinctSize<T>(s: seq<T>)
    requires Distinct(s)
    ensures |Elems(s)| == |s|
  {
    if s == [] {
      assert Elems(s) == {};
    } else {
      var t, x := s[..|s| - 1], s[|s| - 1];
      DistinctSize(t);
      ElemsLast(t, x);
      assert s == t + [x] && x !in t;
    }
  }

  lemma ElemsLast<T>(t: seq<T>, x: T)
    ensures Elems(t + [x]) == Elems(t) + {x} && (x in Elems(t) <==> x in t)
  {
  }

  class Vertex {
    var x: int
    var y: int
    var edges: seq<Edge>

    constructor (x: int, y: int)
      ensures this.x == x && this.y == y && edges == []
    {
      this.x, this.y, edges := x, y, [];
    }

    function Valency(): nat
      reads this
    {
      |edges|
    }

    method AddEdge(e: Edge)
      modifies this`edges
      ensures edges == if e in old(edges) then old(edges) else old(edges) + [e]
    {
      if e !in edges {
        edges := edges + [e];
      }
    }

    method RemoveEdge(e: Edge)
      modifies this`edges
      ensures edges == Without(old(edges), e)
    {
      var v := new Vector(edges);
      v.RemoveElement(e);
      edges := v.items;
    }

    function OppositeVertex(i: nat): Vertex
      requires i < |edges|
      reads this, edges
    {
      if edges[i].v1 == this then edges[i].v2 else edges[i].v1
    }
  }

  class Edge {
    var v1: Vertex
    var v2: Vertex

    constructor (a: Vertex, b: Vertex)
      modifies a`edges, b`edges
      ensures v1 == a && v2 == b && this in a.edges && this in b.edges
    {
      v1, v2 := a, b;
      new;
      v1.AddEdge(this);
      v2.AddEdge(this);
    }

    predicate HasVertex(v: Vertex)
      reads this
    {
      v1 == v || v2 == v
    }
  }

  class Graph {
    var edges: seq<Edge>
    var vertices: seq<Vertex>

    constructor ()
      ensures edges == [] && vertices == []
    {
      edges, vertices := [], [];
    }

    /** The abstract multigraph. */
    ghost function AsShape(): Shape<Vertex, Edge>
      reads this, edges, vertices
    {
      Shape(map e | e in edges :: (e.v1, e.v2), map v | v in vertices :: v.edges)
    }

    ghost predicate Valid()
      reads this, edges, vertices
    {
      Distinct(edges) && Distinct(vertices) && AsShape().Ok()
    }

    method AddVertex(v: Vertex)
      modifies this`vertices
      ensures vertices == if v in old(vertices) then old(vertices) else old(vertices) + [v]
    {
      if v !in vertices {
        vertices := vertices + [v];
      }
    }

    method AddEdge(e: Edge)
      modifies this
      ensures edges == if e in old(edges) then old(edges) else old(edges) + [e]
      ensures Elems(vertices) == if e in old(edges) then Elems(old(vertices)) else Elems(old(vertices)) + {e.v1, e.v2}
      ensures Distinct(old(vertices)) ==> Distinct(vertices)
    {
      if e !in edges {
        edges := edges + [e];
        AddVertex(e.v1);
        AddVertex(e.v2);
      }
    }

    /** remove(Edge): take the edge out of the incidence lists of its ends, and drop an end that had
        no other edge.  The graph stays valid and nothing else changes. */
    method RemoveEdge(e: Edge)
      requires Valid()
      modifies this, e.v1`edges, e.v2`edges
      ensures Valid()
      ensures AsShape() == if e in old(edges) then Removed(old(AsShape()), e) else old(AsShape())
    {
      hide Shape.Ok, AsShape, Removed, Elems;
      if e in edges {
        ghost var g, es, vs := AsShape(), edges, vertices;
        EdgeLists(e);
        ShapeParts();
        WithoutDistinct(edges, e);
        WithoutDistinct(vertices, e.v1);
        WithoutDistinct(Without(vertices, e.v1), e.v2);
        WithoutDistinct(vertices, e.v2);
        ghost var last1, last2 := e.v1.Valency() == 1, e.v2.Valency() == 1;
        if e.v1.Valency() == 1 {
          RemoveVertex(e.v1);
        }
        e.v1.RemoveEdge(e);
        if e.v2.Valency() == 1 {
          RemoveVertex(e.v2);
        }
        e.v2.RemoveEdge(e);
        edges := Without(edges, e);
        ShapeAfterRemove(g, e, es, vs, if last1 then {e.v1} else {}, if last2 then {e.v2} else {});
        RemovedOk(g, e);
      }
    }

    lemma ShapeParts()
      requires Valid()
      ensures AsShape().ends.Keys == Elems(edges) && AsShape().star.Keys == Elems(vertices)
      ensures forall x :: x in edges ==> x in AsShape().ends && AsShape().ends[x] == (x.v1, x.v2)
      ensures forall v :: v in vertices ==> v in AsShape().star && AsShape().star[v] == v.edges
    {
    }

    /** The heap after remove(Edge), seen as an abstract graph. */
    lemma ShapeAfterRemove(g: Shape<Vertex, Edge>, e: Edge, es: seq<Edge>, vs: seq<Vertex>, gone1: set<Vertex>,
                           gone2: set<Vertex>)
      requires g.Ok() && e in g.ends && g.ends[e] == (e.v1, e.v2) && g.ends.Keys == Elems(es)
               && g.star.Keys == Elems(vs)
      requires e.v1 in g.star && e.v2 in g.star && e.v1 != e.v2
      requires Elems(edges) == Elems(es) - {e} && forall x :: x in es ==> x in g.ends && g.ends[x] == (x.v1, x.v2)
      requires gone1 == (if |g.star[e.v1]| == 1 then {e.v1} else {})
               && gone2 == (if |g.star[e.v2]| == 1 then {e.v2} else {})
      requires Elems(vertices) == Elems(vs) - gone1 - gone2
      requires e.v1.edges == Without(g.star[e.v1], e) && e.v2.edges == Without(g.star[e.v2], e)
      requires forall v :: v in vs && v != e.v1 && v != e.v2 ==> v in g.star && v.edges == g.star[v]
      ensures AsShape() == Removed(g, e)
    {
      hide Shape.Ok;
      RemovedOk(g, e);
      var h := Removed(g, e);
      forall v
        ensures v in vertices <==> v in h.star
        ensures v in vertices ==> v.edges == h.star[v]
      {
        ElemsHas(vertices, v);
        ElemsHas(vs, v);
        assert v in g.star ==> (g.Touches(e, v) <==> v == e.v1 || v == e.v2);
      }
      forall x
        ensures x in edges <==> x in h.ends
        ensures x in edges ==> h.ends[x] == (x.v1, x.v2)
      {
        ElemsHas(edges, x);
        ElemsHas(es, x);
      }
    }

    method RemoveVertex(v: Vertex)
      modifies this`vertices
      ensures vertices == Without(old(vertices), v)
    {
      var vs := new Vector(vertices);
      vs.RemoveElement(v);
      vertices := vs.items;
    }

    lemma EdgeLists(e: Edge)
      requires Valid() && e in edges
      ensures e.v1 != e.v2 && e in e.v1.edges && e in e.v2.edges && e.v1 in vertices && e.v2 in vertices
    {
      assert AsShape().EdgeOk(e);
    }

    // -------------------------------------------------------------- the Euler tour

    /** What the incidence lists in the heap say about the abstract graph. */
    lemma AtVertex(v: Vertex)
      requires Valid() && v in vertices
      ensures v in AsShape().star && AsShape().star[v] == v.edges
      ensures forall i {:trigger v.edges[i]} :: 0 <= i < |v.edges| ==>
                && v.edges[i] in edges && v.OppositeVertex(i) == AsShape().Other(v.edges[i], v)
                && v.OppositeVertex(i) in vertices
    {
      assert AsShape().VertexOk(v);
      forall i | 0 <= i < |v.edges|
        ensures v.edges[i] in edges && v.OppositeVertex(i) in vertices
      {
        assert AsShape().Touches(v.edges[i], v) && AsShape().EdgeOk(v.edges[i]);
      }
    }

    /** scoutPath: walk along unmarked edges, unmarking none twice, from `start` until back at
        `target`, or until stuck.  Parity decides that it always ends at `target`. */
    method ScoutPath(start: Vertex, target: Vertex, unmarked: Vector<Edge>)
      returns (path: seq<Vertex>, ghost used: seq<Edge>)
      requires Valid() && start in vertices && target in vertices
      requires Distinct(unmarked.items)
      requires AsShape().OddOnly(Elems(unmarked.items), start, target)
      modifies unmarked
      ensures Scouting(AsShape(), start, target, path, used, old(Elems(unmarked.items)), unmarked.items)
      ensures path[|path| - 1] == target && |unmarked.items| <= old(|unmarked.items|)
    {
      hide AsShape, Scouting, Shape.OddOnly, Shape.Ok, Distinct, Elems;
      ghost var g, all := AsShape(), Elems(unmarked.items);
      path, used := [], [];
      var vertex, moved := start, false;
      AtVertex(start);
      ScoutStart(g, start, target, unmarked.items);
      while true
        invariant AsShape() == g && vertex in vertices && (path + [vertex])[0] == start
        invariant Scouting(g, start, target, path + [vertex], used, all, unmarked.items)
        invariant |unmarked.items| <= old(|unmarked.items|)
        decreases |unmarked.items|
      {
        ghost var rest, here := unmarked.items, vertex;
        path := path + [vertex];
        if vertex == target && moved {
          break;
        }
        var found := false;
        AtVertex(vertex);
        for i := 0 to vertex.Valency()
          invariant unmarked.items == rest && vertex == here && AsShape() == g
          invariant forall j :: 0 <= j < i ==> vertex.edges[j] !in rest
        {
          var e := vertex.edges[i];
          if unmarked.Contains(e) {
            ScoutOn(g, start, target, path, used, all, rest, e);
            unmarked.RemoveElement(e);
            vertex := vertex.OppositeVertex(i);
            used := used + [e];
            moved, found := true, true;
            break;
          }
        }
        if !found {
          ScoutStuck(g, start, target, path, used, all, rest);
          break;
        }
      }
    }

    /** walkPath: emit the vertices of `path`, and at each of them first walk a detour along every edge
        that is still unmarked there. */
    method WalkPath(path: seq<Vertex>, unmarked: Vector<Edge>, result: Vector<Vertex>, ghost used: seq<Edge>)
      returns (ghost labels: seq<Edge>)
      requires Valid() && AsShape().Trail(path, used) && path[0] in vertices
      requires Distinct(unmarked.items) && EvenAll(AsShape(), Elems(unmarked.items))
      requires Elems(used) !! Elems(unmarked.items)
      modifies unmarked, result
      ensures old(result.items) < result.items && |unmarked.items| <= old(|unmarked.items|)
      ensures Walked(AsShape(), path[0], path[|path| - 1], result.items[old(|result.items|)..], labels,
                     old(Elems(unmarked.items)), Elems(used), unmarked.items)
      ensures Clean(AsShape(), result.items[old(|result.items|)..], Elems(unmarked.items))
      decreases |unmarked.items|, 2
    {
      hide AsShape, Walked, Clean, CleanBut, EvenAll, Shape.Ok, Distinct, Elems, Shape.StepJoins;
      ghost var g, all, before := AsShape(), Elems(unmarked.items), result.items;
      AtVertex(path[0]);
      ghost var emitted: seq<Vertex> := [];
      labels := [];
      for i := 0 to |path|
        invariant AsShape() == g && result.items == before + emitted && |unmarked.items| <= old(|unmarked.items|)
        invariant if i == 0 then emitted == [] && labels == [] && unmarked.items == old(unmarked.items)
                  else Walked(g, path[0], path[i - 1], emitted, labels, all, Elems(used[..i - 1]), unmarked.items)
                       && Clean(g, emitted, Elems(unmarked.items))
      {
        var vertex := path[i];
        WalkVertex(g, path, used, i, emitted, labels, all, unmarked.items);
        InVertices(g, vertex);
        result.AddElement(vertex);
        emitted, labels := emitted + [vertex], if i == 0 then [] else labels + [used[i - 1]];
        emitted, labels := Detours(vertex, path[0], unmarked, result, before, emitted, labels, all, Elems(used[..i]));
      }
      assert used[..|path| - 1] == used;
      WalkedFacts(g, path[0], path[|path| - 1], emitted, labels, all, Elems(used), unmarked.items);
    }

    lemma InVertices(g: Shape<Vertex, Edge>, v: Vertex)
      requires g == AsShape() && v in g.star
      ensures v in vertices
    {
    }

    /** One detour: along edge j of `vertex`, and back. */
    method Detour(vertex: Vertex, j: nat, ghost first: Vertex, unmarked: Vector<Edge>, result: Vector<Vertex>,
                  ghost before: seq<Vertex>,
                  ghost emitted0: seq<Vertex>, ghost labels0: seq<Edge>, ghost all: set<Edge>, ghost used: set<Edge>)
      returns (ghost emitted: seq<Vertex>, ghost labels: seq<Edge>)
      requires Valid() && vertex in vertices && result.items == before + emitted0
      requires j < |vertex.edges| && vertex.edges[j] in unmarked.items
      requires Walked(AsShape(), first, vertex, emitted0, labels0, all, used, unmarked.items) && used !! all
      requires CleanBut(AsShape(), emitted0, Elems(unmarked.items), vertex)
      modifies unmarked, result
      ensures result.items == before + emitted && |unmarked.items| < old(|unmarked.items|)
      ensures Walked(AsShape(), first, vertex, emitted, labels, all, used, unmarked.items)
      ensures CleanBut(AsShape(), emitted, Elems(unmarked.items), vertex)
      ensures Elems(unmarked.items) <= old(Elems(unmarked.items)) - {vertex.edges[j]}
      decreases |unmarked.items|, 0
    {
      hide AsShape, Walked, Clean, CleanBut, EvenAll, Shape.Ok, Shape.Trail, Shape.OddOnly, Distinct, Elems, Scouting;
      ghost var g, rest, sofar := AsShape(), unmarked.items, result.items;
      AtVertex(vertex);
      var e := vertex.edges[j];
      var opposite := vertex.OppositeVertex(j);
      DetourStart(g, first, vertex, emitted0, labels0, all, used, rest, e);
      unmarked.RemoveElement(e);
      ghost var freed := Elems(unmarked.items);
      var scouted, taken := ScoutPath(opposite, vertex, unmarked);
      ghost var left := Elems(unmarked.items);
      DetourScouted(g, opposite, vertex, scouted, taken, freed, unmarked.items);
      ghost var more := WalkPath(scouted, unmarked, result, taken);
      ghost var detour := result.items[|sofar|..];
      DetourEnd(g, first, vertex, emitted0, labels0, all, used, rest, e, detour, more, left, Elems(taken),
          unmarked.items);
      WalkedFacts(g, opposite, vertex, detour, more, left, Elems(taken), unmarked.items);
      emitted, labels := emitted0 + detour, labels0 + [e] + more;
    }

    /** The inner loop of walkPath at one vertex. */
    method Detours(vertex: Vertex, ghost first: Vertex, unmarked: Vector<Edge>, result: Vector<Vertex>,
                   ghost before: seq<Vertex>,
                   ghost emitted0: seq<Vertex>, ghost labels0: seq<Edge>, ghost all: set<Edge>, ghost used: set<Edge>)
      returns (ghost emitted: seq<Vertex>, ghost labels: seq<Edge>)
      requires Valid() && vertex in vertices && result.items == before + emitted0
      requires Walked(AsShape(), first, vertex, emitted0, labels0, all, used, unmarked.items) && used !! all
      requires CleanBut(AsShape(), emitted0, Elems(unmarked.items), vertex)
      modifies unmarked, result
      ensures result.items == before + emitted && |unmarked.items| <= old(|unmarked.items|)
      ensures Walked(AsShape(), first, vertex, emitted, labels, all, used, unmarked.items)
      ensures Clean(AsShape(), emitted, Elems(unmarked.items))
      decreases |unmarked.items|, 1
    {
      hide AsShape, Walked, Clean, CleanBut, EvenAll, Shape.Ok, Distinct, Elems, Shape.StepJoins, Scouting;
      ghost var g := AsShape();
      emitted, labels := emitted0, labels0;
      AtVertex(vertex);
      WalkedFacts(g, first, vertex, emitted, labels, all, used, unmarked.items);
      for j := 0 to vertex.Valency()
        invariant AsShape() == g && result.items == before + emitted && |unmarked.items| <= old(|unmarked.items|)
        invariant Walked(g, first, vertex, emitted, labels, all, used, unmarked.items)
        invariant CleanBut(g, emitted, Elems(unmarked.items), vertex)
        invariant forall k :: 0 <= k < j ==> vertex.edges[k] !in unmarked.items
      {
        var e := vertex.edges[j];
        if unmarked.Contains(e) {
          ghost var rest := unmarked.items;
          emitted, labels := Detour(vertex, j, first, unmarked, result, before, emitted, labels, all, used);
          StillMarked(vertex.edges, j, rest, unmarked.items);
        }
      }
      AllClean(g, emitted, unmarked.items, vertex);
    }

    /** eulerPathExists: are all valencies even? */
    method EulerPathExists() returns (r: bool)
      requires Valid()
      ensures r <==> EvenAll(AsShape(), Elems(edges))
    {
      for i := 0 to |vertices|
        invariant forall k :: 0 <= k < i ==> vertices[k].Valency() % 2 == 0
      {
        if vertices[i].Valency() % 2 != 0 {
          ValencyIsDegree(vertices[i]);
          return false;
        }
      }
      forall v | v in vertices
        ensures AsShape().Degree(Elems(edges), v) % 2 == 0
      {
        ValencyIsDegree(v);
      }
      return true;
    }

    lemma ValencyIsDegree(v: Vertex)
      requires Valid() && v in vertices
      ensures v in AsShape().star && AsShape().Degree(Elems(edges), v) == v.Valency()
    {
      var g := AsShape();
      AtVertex(v);
      assert g.VertexOk(v);
      DistinctSize(v.edges);
      assert g.Star(v) * Elems(edges) == Elems(v.edges);
    }

    /** findEulerPath, on a connected graph with at least one edge and only even valencies: the result is
        a closed tour.  Its consecutive vertices, around, are joined by the edges of `tour`, in which every
        edge of the graph appears exactly once. */
    method FindEulerPath() returns (path: seq<Vertex>, ghost tour: seq<Edge>)
      requires Valid() && edges != [] && AsShape().Connected() && EvenAll(AsShape(), Elems(edges))
      ensures |path| == |edges| && AsShape().Trail(path + [path[0]], tour)
      ensures Elems(tour) == Elems(edges)
    {
      hide AsShape, Walked, Clean, EvenAll, Shape.Ok, Shape.Trail, Shape.OddOnly, Shape.Connected, Distinct, Elems,
           Scouting;
      ghost var g := AsShape();
      var result := new Vector<Vertex>([]);
      var unmarked := new Vector(edges);
      HasVertices();
      var vertex := vertices[0];
      EvenIsOdd(g, Elems(edges), vertex);
      var scouted, taken := ScoutPath(vertex, vertex, unmarked);
      ghost var left := Elems(unmarked.items);
      DetourScouted(g, vertex, vertex, scouted, taken, Elems(edges), unmarked.items);
      tour := WalkPath(scouted, unmarked, result, taken);
      EdgesAre();
      assert result.items[0..] == result.items;
      TourComplete(g, vertex, result.items, tour, left, Elems(taken), unmarked.items, edges);
      result.items := result.items[..|result.items| - 1];
      path := result.items;
    }

    lemma HasVertices()
      requires Valid() && edges != []
      ensures vertices != []
    {
      assert AsShape().EdgeOk(edges[0]);
    }

    lemma EdgesAre()
      ensures AsShape().ends.Keys == Elems(edges)
    {
    }

    // -------------------------------------------------------------- connected parts

    /** The edges at `vertex` that are still to be collected when e has just been. */
    method Enqueue(vertex: Vertex, e: Edge, part: Graph, queue: Vector<Edge>) returns (ghost pushed: seq<Edge>)
      requires Valid() && vertex in vertices && e in vertex.edges && e in part.edges
      modifies queue
      ensures queue.items == old(queue.items) + pushed && Pushed(vertex.edges, Elems(part.edges), pushed)
    {
      hide AsShape, Shape.Ok;
      pushed := [];
      if vertex.Valency() > 1 {
        for i := 0 to vertex.Valency()
          invariant queue.items == old(queue.items) + pushed
          invariant forall f :: f in pushed ==> f in vertex.edges && f !in part.edges
          invariant forall k :: 0 <= k < i ==> vertex.edges[k] in part.edges || vertex.edges[k] in pushed
        {
          var f := vertex.edges[i];
          if f != e && f !in part.edges {
            queue.AddElement(f);
            pushed := pushed + [f];
          }
        }
      }
    }

    /** getGraphConnectedTo: collect the edges connected to `start`.  The queue may hold an edge many
        times; popping one that is collected already adds only uncollected ones. */
    method GetGraphConnectedTo(start: Edge) returns (part: Graph)
      requires Valid() && start in edges
      ensures fresh(part) && part.Valid()
      ensures AsShape().Component(start, Elems(part.edges))
    {
      hide AsShape, Shape.Ok, Shape.Component, Shape.Closed, Searching, Elems, Distinct, Pushed, CountIn, Collected,
           EndsOf;
      ghost var g := AsShape();
      part := new Graph();
      var queue := new Vector<Edge>([]);
      queue.AddElement(start);
      EdgesAre();
      ElemsHas(edges, start);
      SearchStart(g, start, part.edges, queue.items);
      part.CollectedStart();
      while |queue.items| > 0
        invariant fresh(part) && fresh(queue) && AsShape() == g && part.Collected()
        invariant Searching(g, start, Elems(part.edges), queue.items)
        modifies part, queue
        decreases g.ends.Keys - Elems(part.edges), CountIn(queue.items, Elems(part.edges))
      {
        ghost var was, collected := queue.items, Elems(part.edges);
        var e := queue.items[0];
        queue.items := queue.items[1..];
        part.Collect(e);
        SearchPop(g, start, collected, was);
        AtEdge(e);
        ghost var pushed1 := Enqueue(e.v1, e, part, queue);
        ghost var pushed2 := Enqueue(e.v2, e, part, queue);
        SearchOn(g, start, collected, was, pushed1, pushed2);
      }
      SearchEnd(g, start, Elems(part.edges), queue.items);
      PartIsValid(part);
    }

    lemma AtEdge(e: Edge)
      requires Valid() && e in AsShape().ends
      ensures e in edges && e.v1 in vertices && e.v2 in vertices && e in e.v1.edges && e in e.v2.edges
      ensures e.v1 in AsShape().star && e.v2 in AsShape().star
      ensures AsShape().ends[e] == (e.v1, e.v2) && AsShape().star[e.v1] == e.v1.edges
              && AsShape().star[e.v2] == e.v2.edges
    {
      assert AsShape().EdgeOk(e);
    }

    /** The vertices are the ends of the edges. */
    ghost predicate Collected()
      reads this, edges
    {
      Distinct(edges) && Distinct(vertices) && Elems(vertices) == EndsOf(edges)
    }

    static ghost function EndsOf(es: seq<Edge>): set<Vertex>
      reads es
    {
      (set e | e in es :: e.v1) + (set e | e in es :: e.v2)
    }

    static lemma EndsMore(es: seq<Edge>, e: Edge)
      ensures EndsOf(es + [e]) == EndsOf(es) + {e.v1, e.v2}
      ensures e in es ==> {e.v1, e.v2} <= EndsOf(es)
    {
      assert forall x :: x in es + [e] <==> x in es || x == e;
    }

    lemma CollectedStart()
      requires edges == [] && vertices == []
      ensures Collected()
    {
    }

    method Collect(e: Edge)
      requires Collected()
      modifies this
      ensures Collected() && Elems(edges) == old(Elems(edges)) + {e} && e in edges
    {
      hide EndsOf, Elems;
      EndsMore(edges, e);
      ElemsLast(edges, e);
      AddEdge(e);
      InElems(old(edges), e);
    }

    lemma PartEdge(part: Graph, e: Edge)
      requires Valid() && e in AsShape().ends && e in part.edges && Elems(part.vertices) == EndsOf(part.edges)
      ensures e in part.AsShape().ends && part.AsShape().EdgeOk(e)
    {
      AtEdge(e);
      assert AsShape().EdgeOk(e);
      assert e.v1 in EndsOf(part.edges) && e.v2 in EndsOf(part.edges);
      ElemsHas(part.vertices, e.v1);
      ElemsHas(part.vertices, e.v2);
    }

    lemma PartVertex(part: Graph, v: Vertex)
      requires Valid() && v in part.vertices && Elems(part.vertices) == EndsOf(part.edges)
      requires AsShape().Closed(Elems(part.edges))
      ensures v in part.AsShape().star && part.AsShape().VertexOk(v)
    {
      ElemsHas(part.vertices, v);
      var c :| c in part.edges && (c.v1 == v || c.v2 == v);
      ElemsHas(part.edges, c);
      AtEdge(c);
      AtVertex(v);
      assert AsShape().VertexOk(v);
      forall e | e in v.edges
        ensures e in part.edges && e.HasVertex(v)
      {
        assert AsShape().Touches(e, v) && AsShape().Adjacent(c, e);
        ElemsHas(part.edges, e);
      }
    }

    /** A closed set of collected edges makes a valid graph of its own. */
    lemma PartIsValid(part: Graph)
      requires Valid() && part.Collected() && AsShape().Closed(Elems(part.edges))
      ensures part.Valid()
    {
      hide Shape.EdgeOk, Shape.VertexOk, EndsOf;
      forall e | e in part.edges
        ensures e in part.AsShape().ends && part.AsShape().EdgeOk(e)
      {
        ElemsHas(part.edges, e);
        PartEdge(part, e);
      }
      forall v | v in part.vertices
        ensures v in part.AsShape().star && part.AsShape().VertexOk(v)
      {
        PartVertex(part, v);
      }
    }

    /** isConnected. */
    method IsConnected() returns (r: bool)
      requires Valid()
      ensures r <==> AsShape().Connected()
    {
      hide AsShape, Shape.Ok, Shape.Component, Shape.Connected, Elems;
      EdgesAre();
      DistinctSize(edges);
      var i := |edges|;
      if i < 2 {
        FewConnected(AsShape());
        return true;
      }
      var part := GetGraphConnectedTo(edges[0]);
      DistinctSize(part.edges);
      WholeConnected(AsShape(), edges[0], Elems(part.edges));
      return |part.edges| == i;
    }

    /** The inner loop of getIslands. */
    static method AppendEdges(part: Graph, seen: Vector<Edge>)
      modifies seen
      ensures seen.items == old(seen.items) + part.edges
    {
      for j := 0 to |part.edges|
        invariant seen.items == old(seen.items) + part.edges[..j]
      {
        seen.AddElement(part.edges[j]);
      }
    }

    /** getIslands: the edges fall into the returned parts, each a connected component; there is at most
        one part exactly if the graph is connected. */
    method GetIslands() returns (islands: seq<Graph>, ghost starts: seq<Edge>, ghost parts: seq<set<Edge>>)
      requires Valid()
      ensures |islands| == |starts| == |parts| && Disjoint(parts)
      ensures forall k :: 0 <= k < |islands| ==>
                islands[k].Valid() && Elems(islands[k].edges) == parts[k]
                && starts[k] in edges && AsShape().Component(starts[k], parts[k])
      ensures forall e :: e in edges ==> exists k :: 0 <= k < |islands| && e in islands[k].edges
      ensures |islands| <= 1 <==> AsShape().Connected()
    {
      hide AsShape, Shape.Ok, Shape.Component, Shape.Connected, Shape.Closed, Elems, Islands, Distinct, Disjoint;
      ghost var g := AsShape();
      islands, starts, parts := [], [], [];
      var seen := new Vector<Edge>([]);
      IslandsStart(g, seen.items);
      EdgesAre();
      for i := 0 to |edges|
        modifies seen
        invariant fresh(seen) && AsShape() == g
        invariant |islands| == |parts|
        invariant forall k :: 0 <= k < |islands| ==>
                  fresh(islands[k]) && islands[k].Valid() && Elems(islands[k].edges) == parts[k]
        invariant Islands(g, starts, parts, Elems(seen.items))
        invariant forall k :: 0 <= k < i ==> edges[k] in seen.items
      {
        var e := edges[i];
        StartsIn(g, starts, parts, Elems(seen.items), edges);
        ElemsHas(seen.items, e);
        ElemsHas(edges, e);
        if !seen.Contains(e) {
          var part := GetGraphConnectedTo(e);
          ghost var before := seen.items;
          AppendEdges(part, seen);
          IslandsMore(g, starts, parts, before, e, part.edges);
          ElemsHas(part.edges, e);
          PartHas(g, e, part.edges);
          islands := islands + [part];
          starts := starts + [e];
          parts := parts + [Elems(part.edges)];
        }
      }
      IslandsEnd(g, starts, parts, seen.items, edges);
      StartsIn(g, starts, parts, Elems(seen.items), edges);
      InSomeIsland(edges, islands, parts);
    }
  }

  lemma InSomeIsland(edges: seq<Edge>, islands: seq<Graph>, parts: seq<set<Edge>>)
    requires |islands| == |parts| && forall k :: 0 <= k < |islands| ==> Elems(islands[k].edges) == parts[k]
    requires forall e :: e in edges ==> exists k :: 0 <= k < |parts| && e in parts[k]
    ensures forall e :: e in edges ==> exists k :: 0 <= k < |islands| && e in islands[k].edges
  {
    hide Elems;
    forall e | e in edges
      ensures exists k :: 0 <= k < |islands| && e in islands[k].edges
    {
      var k :| 0 <= k < |parts| && e in parts[k];
      ElemsHas(islands[k].edges, e);
    }
  }

  /** The abstract graph without edge e and without the vertices that had only this edge. */
  ghost function Removed<V, E>(g: Shape<V, E>, e: E): Shape<V, E> {
    Shape(map f | f in g.ends && f != e :: g.ends[f],
          map v | v in g.star && Without(g.star[v], e) != [] :: Without(g.star[v], e))
  }

  lemma {:induction false} WithoutAbsent<T>(s: seq<T>, x: T)
    requires x !in s
    ensures Without(s, x) == s
  {
    if s != [] {
      WithoutAbsent(s[1..], x);
    }
  }

  /** Removing an edge keeps the graph well formed; at vertices the edge does not touch nothing changes. */
  lemma RemovedOk<V, E>(g: Shape<V, E>, e: E)
    requires g.Ok() && e in g.ends
    ensures Removed(g, e).Ok()
    ensures forall v :: v in g.star && !g.Touches(e, v) ==> Without(g.star[v], e) == g.star[v] && g.star[v] != []
    ensures forall v :: v in g.star && g.Touches(e, v) ==> |Without(g.star[v], e)| == |g.star[v]| - 1
  {
    var h := Removed(g, e);
    forall v | v in g.star
      ensures !g.Touches(e, v) ==> Without(g.star[v], e) == g.star[v] && g.star[v] != []
      ensures g.Touches(e, v) ==> |Without(g.star[v], e)| == |g.star[v]| - 1
      ensures forall f :: f in Without(g.star[v], e) <==> f in g.star[v] && f != e
      ensures v in h.star ==> h.VertexOk(v)
    {
      RemovedAt(g, e, v);
    }
    forall f | f in h.ends
      ensures h.EdgeOk(f)
    {
      assert g.EdgeOk(f);
    }
  }

  lemma RemovedAt<V, E>(g: Shape<V, E>, e: E, v: V)
    requires g.Ok() && e in g.ends && v in g.star
    ensures !g.Touches(e, v) ==> Without(g.star[v], e) == g.star[v] && g.star[v] != []
    ensures g.Touches(e, v) ==> |Without(g.star[v], e)| == |g.star[v]| - 1
    ensures forall f :: f in Without(g.star[v], e) <==> f in g.star[v] && f != e
    ensures v in Removed(g, e).star ==> Removed(g, e).VertexOk(v)
  {
    assert g.VertexOk(v) && g.EdgeOk(e);
    WithoutDistinct(g.star[v], e);
    forall f
      ensures f in Without(g.star[v], e) <==> f in g.star[v] && f != e
    {
      ElemsHas(Without(g.star[v], e), f);
      ElemsHas(g.star[v], f);
    }
    if !g.Touches(e, v) {
      WithoutAbsent(g.star[v], e);
    }
    forall f | f in Without(g.star[v], e)
      ensures Removed(g, e).Touches(f, v)
    {
      ElemsHas(Without(g.star[v], e), f);
      ElemsHas(g.star[v], f);
      assert g.Touches(f, v);
    }
  }

  /** The state of scoutPath: the path walked so far is a trail from start, its edges are the ones
      taken from `all`, and in the rest only its last vertex and the target are odd. */
  ghost predicate Scouting<V, E>(g: Shape<V, E>, start: V, target: V, path: seq<V>, used: seq<E>, all: set<E>,
                                 rest: seq<E>) {
    && g.Trail(path, used) && path[0] == start && path[|path| - 1] in g.star
    && Elems(used) <= all && Distinct(rest) && Elems(rest) == all - Elems(used)
    && g.OddOnly(Elems(rest), path[|path| - 1], target)
  }

  lemma ScoutStart<V, E>(g: Shape<V, E>, start: V, target: V, rest: seq<E>)
    requires start in g.star && Distinct(rest) && g.OddOnly(Elems(rest), start, target)
    ensures Scouting(g, start, target, [] + [start], [], Elems(rest), rest)
  {
  }

  lemma ScoutOn<V, E>(g: Shape<V, E>, start: V, target: V, path: seq<V>, used: seq<E>, all: set<E>, rest: seq<E>, e: E)
    requires g.Ok() && Scouting(g, start, target, path, used, all, rest)
    requires e in rest && e in g.star[path[|path| - 1]]
    ensures e in g.ends && g.Other(e, path[|path| - 1]) in g.star
    ensures Scouting(g, start, target, path + [g.Other(e, path[|path| - 1])], used + [e], all, Without(rest, e))
    ensures |Without(rest, e)| < |rest|
  {
    hide Shape.OddOnly, Shape.Ok, Shape.StepJoins, Distinct;
    var c := path[|path| - 1];
    StepParity(g, Elems(rest), c, target, e);
    assert e in Elems(rest) && e !in Elems(used);
    TrailExtend(g, path, used, e, g.Other(e, c));
    WithoutDistinct(rest, e);
    assert Elems(used + [e]) == Elems(used) + {e};
  }

  lemma ScoutStuck<V, E>(g: Shape<V, E>, start: V, target: V, path: seq<V>, used: seq<E>, all: set<E>, rest: seq<E>)
    requires Scouting(g, start, target, path, used, all, rest)
    requires forall e :: e in g.star[path[|path| - 1]] ==> e !in rest
    ensures path[|path| - 1] == target
  {
    hide Shape.OddOnly;
    StuckIsHome(g, Elems(rest), path[|path| - 1], target);
  }

  // ---------------------------------------------------------------- the state of walkPath

  ghost predicate EvenAll<V, E>(g: Shape<V, E>, u: set<E>) {
    forall v :: v in g.star ==> g.Degree(u, v) % 2 == 0
  }

  lemma EvenIsOdd<V, E>(g: Shape<V, E>, u: set<E>, t: V)
    ensures EvenAll(g, u) <==> g.OddOnly(u, t, t)
  {
    hide Shape.Degree;
    if g.OddOnly(u, t, t) {
      forall v | v in g.star
        ensures g.Degree(u, v) % 2 == 0
      {
        assert g.OddAt(u, t, t, v);
      }
    }
  }

  /** The emitted vertices are a trail from a to b whose edges are `used` and those taken from `all`;
      what is left of `all` has even degrees. */
  ghost predicate Walked<V, E>(g: Shape<V, E>, a: V, b: V, emitted: seq<V>, labels: seq<E>, all: set<E>, used: set<E>,
                               rest: seq<E>) {
    && g.Trail(emitted, labels) && emitted[0] == a && emitted[|emitted| - 1] == b && b in g.star
    && Distinct(rest) && Elems(rest) <= all && Elems(labels) == used + (all - Elems(rest))
    && EvenAll(g, Elems(rest))
  }

  lemma WalkedFacts<V, E>(g: Shape<V, E>, a: V, b: V, emitted: seq<V>, labels: seq<E>, all: set<E>, used: set<E>,
                          rest: seq<E>)
    requires Walked(g, a, b, emitted, labels, all, used, rest)
    ensures 0 < |emitted| && Elems(rest) <= all && b in g.star
  {
  }

  /** No unmarked edge is left at any emitted vertex, except perhaps at v. */
  ghost predicate CleanBut<V, E>(g: Shape<V, E>, emitted: seq<V>, u: set<E>, v: V) {
    forall w :: w in emitted ==> w in g.star && (w == v || g.Star(w) * u == {})
  }

  ghost predicate Clean<V, E>(g: Shape<V, E>, emitted: seq<V>, u: set<E>) {
    forall w :: w in emitted ==> w in g.star && g.Star(w) * u == {}
  }

  lemma WalkVertex<V, E>(g: Shape<V, E>, path: seq<V>, used: seq<E>, i: nat, emitted: seq<V>, labels: seq<E>,
                         all: set<E>, rest: seq<E>)
    requires g.Ok() && g.Trail(path, used) && i < |path| && path[0] in g.star && Elems(used) !! all
    requires i == 0 ==> emitted == [] && Distinct(rest) && Elems(rest) == all && EvenAll(g, all)
    requires 0 < i ==>
               && Walked(g, path[0], path[i - 1], emitted, labels, all, Elems(used[..i - 1]), rest)
               && Clean(g, emitted, Elems(rest))
    ensures Walked(g, path[0], path[i], emitted + [path[i]], if i == 0 then [] else labels + [used[i - 1]], all,
                   Elems(used[..i]), rest)
    ensures CleanBut(g, emitted + [path[i]], Elems(rest), path[i])
    ensures Elems(used[..i]) !! all && path[i] in g.star
  {
    hide EvenAll, Shape.StepJoins, Shape.Ok;
    if 0 < i {
      var e := used[i - 1];
      TrailStep(g, path, used, i - 1);
      assert used[..i] == used[..i - 1] + [e] && e in Elems(used);
      ElemsLast(used[..i - 1], e);
      ElemsLast(labels, e);
      assert e !in Elems(labels);
      TrailExtend(g, emitted, labels, e, path[i]);
    }
  }

  lemma TrailStep<V, E>(g: Shape<V, E>, p: seq<V>, q: seq<E>, i: nat)
    requires g.Ok() && g.Trail(p, q) && i < |q|
    ensures g.Joins(q[i], p[i], p[i + 1]) && p[i + 1] in g.star
  {
    assert g.StepJoins(p, q, i);
    assert g.EdgeOk(q[i]);
  }

  lemma DetourStart<V, E>(g: Shape<V, E>, first: V, v: V, emitted: seq<V>, labels: seq<E>, all: set<E>, used: set<E>,
                          rest: seq<E>, e: E)
    requires g.Ok() && Walked(g, first, v, emitted, labels, all, used, rest) && used !! all
    requires e in rest && e in g.star[v]
    ensures Distinct(Without(rest, e)) && Elems(Without(rest, e)) == Elems(rest) - {e} && |Without(rest, e)| < |rest|
    ensures e in g.ends && g.Joins(e, v, g.Other(e, v)) && g.OddOnly(Elems(Without(rest, e)), g.Other(e, v), v)
  {
    hide Shape.OddOnly, Shape.Ok, Shape.Trail, EvenAll;
    WithoutDistinct(rest, e);
    EvenIsOdd(g, Elems(rest), v);
    assert e in Elems(rest);
    StepParity(g, Elems(rest), v, v, e);
  }

  lemma DetourScouted<V, E>(g: Shape<V, E>, w: V, v: V, scouted: seq<V>, taken: seq<E>, freed: set<E>, left: seq<E>)
    requires Scouting(g, w, v, scouted, taken, freed, left) && scouted[|scouted| - 1] == v
    ensures g.Trail(scouted, taken) && scouted[0] == w && EvenAll(g, Elems(left)) && Distinct(left)
    ensures Elems(taken) <= freed && Elems(left) == freed - Elems(taken)
  {
    hide Shape.OddOnly, EvenAll;
    EvenIsOdd(g, Elems(left), v);
  }

  lemma DetourEnd<V, E>(g: Shape<V, E>, first: V, v: V, emitted: seq<V>, labels: seq<E>, all: set<E>, used: set<E>,
                        rest: seq<E>, e: E,
                        detour: seq<V>, more: seq<E>, left: set<E>, taken: set<E>, rest': seq<E>)
    requires g.Ok() && Walked(g, first, v, emitted, labels, all, used, rest) && used !! all && e in rest
    requires CleanBut(g, emitted, Elems(rest), v)
    requires e in g.ends && g.Joins(e, v, g.Other(e, v)) && taken <= Elems(rest) - {e}
             && left == Elems(rest) - {e} - taken
    requires Walked(g, g.Other(e, v), v, detour, more, left, taken, rest') && Clean(g, detour, Elems(rest'))
    ensures Walked(g, first, v, emitted + detour, labels + [e] + more, all, used, rest')
    ensures CleanBut(g, emitted + detour, Elems(rest'), v)
  {
    hide EvenAll, Shape.StepJoins, Shape.Ok, Distinct;
    assert e in Elems(rest) && e !in Elems(labels) && e !in Elems(more);
    TrailJoin(g, emitted, labels, e, detour, more);
    ElemsJoin(labels, e, more);
    forall w | w in emitted + detour
      ensures w in g.star && (w == v || g.Star(w) * Elems(rest') == {})
    {
      if w in emitted && w != v {
        assert g.Star(w) * Elems(rest) == {};
        assert Elems(rest') <= Elems(rest);
      }
    }
  }

  lemma ElemsJoin<T>(s: seq<T>, x: T, t: seq<T>)
    ensures Elems(s + [x] + t) == Elems(s) + {x} + Elems(t)
  {
  }

  lemma StillMarked<E>(star: seq<E>, j: nat, rest: seq<E>, rest': seq<E>)
    requires j < |star| && Elems(rest') <= Elems(rest) - {star[j]}
    requires forall k :: 0 <= k < j ==> star[k] !in rest
    ensures forall k :: 0 <= k < j + 1 ==> star[k] !in rest'
  {
    assert forall x :: x in rest' ==> x in Elems(rest');
  }

  lemma AllClean<V, E>(g: Shape<V, E>, emitted: seq<V>, rest: seq<E>, v: V)
    requires v in g.star && CleanBut(g, emitted, Elems(rest), v) && (forall k :: 0 <= k < |g.star[v]| ==>
               g.star[v][k] !in rest)
    ensures Clean(g, emitted, Elems(rest))
  {
  }

  lemma Partition<T>(all: set<T>, taken: set<T>, rest: set<T>, labels: set<T>)
    requires taken <= all && rest <= all - taken && labels == taken + (all - taken - rest)
    ensures labels + rest == all
    ensures rest == {} ==> labels == all
  {
  }

  /** The walk of findEulerPath is complete: no edge can be left. */
  lemma TourComplete<V, E>(g: Shape<V, E>, v: V, emitted: seq<V>, labels: seq<E>, left: set<E>, taken: set<E>,
                           rest: seq<E>, edges: seq<E>)
    requires g.Ok() && g.Connected() && g.ends.Keys == Elems(edges) && Distinct(edges)
    requires taken <= Elems(edges) && left == Elems(edges) - taken
    requires Walked(g, v, v, emitted, labels, left, taken, rest) && Clean(g, emitted, Elems(rest))
    ensures |emitted| == |edges| + 1 && Elems(labels) == Elems(edges)
    ensures g.Trail(emitted, labels) && emitted == emitted[..|edges|] + [emitted[0]]
  {
    hide Shape.Ok, Shape.Connected, EvenAll, Shape.StepJoins, Elems;
    Partition(Elems(edges), taken, Elems(rest), Elems(labels));
    TrailCoversAll(g, emitted, labels, Elems(rest));
    DistinctSize(labels);
    DistinctSize(edges);
  }

  // ---------------------------------------------------------------- the state of the searches

  /** What Enqueue appends: uncollected edges of the star, and no uncollected one is missed. */
  ghost predicate Pushed<E>(star: seq<E>, collected: set<E>, pushed: seq<E>) {
    && (forall f :: f in pushed ==> f in star && f !in collected)
    && (forall f :: f in star ==> f in collected || f in pushed)
  }

  /** The edges collected so far and those in the queue are connected to `start`, and every edge next
      to a collected one is collected or in the queue. */
  ghost predicate Searching<V, E>(g: Shape<V, E>, start: E, collected: set<E>, queue: seq<E>) {
    && collected <= g.ends.Keys && (forall e :: e in queue ==> e in g.ends)
    && (start in collected || start in queue)
    && (forall e, f :: e in collected && f in g.ends && g.Adjacent(e, f) ==> f in collected || f in queue)
    && (forall t | t <= g.ends.Keys :: start in t && g.Closed(t) ==> Within(t, collected, queue))
  }

  ghost predicate Within<E>(t: set<E>, collected: set<E>, queue: seq<E>) {
    collected <= t && forall e :: e in queue ==> e in t
  }

  ghost function CountIn<E>(queue: seq<E>, collected: set<E>): nat {
    if queue == [] then 0 else (if queue[0] in collected then 1 else 0) + CountIn(queue[1..], collected)
  }

  lemma {:induction false} CountNone<E>(queue: seq<E>, pushed: seq<E>, collected: set<E>)
    requires forall f :: f in pushed ==> f !in collected
    ensures CountIn(queue + pushed, collected) == CountIn(queue, collected)
  {
    if queue != [] {
      assert (queue + pushed)[1..] == queue[1..] + pushed;
      CountNone(queue[1..], pushed, collected);
    } else if pushed != [] {
      assert queue + pushed == pushed;
      CountNone([], pushed[1..], collected);
      assert [] + pushed[1..] == pushed[1..];
    }
  }

  lemma SearchStart<V, E>(g: Shape<V, E>, start: E, edges: seq<E>, queue: seq<E>)
    requires start in g.ends && edges == [] && queue == [start]
    ensures Searching(g, start, Elems(edges), queue)
  {
  }

  lemma SearchPop<V, E>(g: Shape<V, E>, start: E, collected: set<E>, queue: seq<E>)
    requires Searching(g, start, collected, queue) && queue != []
    ensures queue[0] in g.ends
  {
  }

  lemma SearchOn<V, E>(g: Shape<V, E>, start: E, collected: set<E>, queue: seq<E>, pushed1: seq<E>, pushed2: seq<E>)
    requires g.Ok() && Searching(g, start, collected, queue) && queue != [] && queue[0] in g.ends
    requires var e := queue[0]; g.ends[e].0 in g.star && g.ends[e].1 in g.star
    requires Pushed(g.star[g.ends[queue[0]].0], collected + {queue[0]}, pushed1)
    requires Pushed(g.star[g.ends[queue[0]].1], collected + {queue[0]}, pushed2)
    ensures Searching(g, start, collected + {queue[0]}, queue[1..] + pushed1 + pushed2)
    ensures queue[0] in collected ==> collected + {queue[0]} == collected
    ensures queue[0] in collected ==> CountIn(queue[1..] + pushed1 + pushed2, collected) < CountIn(queue, collected)
  {
    var e, queue' := queue[0], queue[1..] + pushed1 + pushed2;
    var collected' := collected + {e};
    hide Shape.Closed, Within;
    forall f | f in g.ends && g.Adjacent(e, f)
      ensures f in collected' || f in queue'
    {
      assert g.EdgeOk(f);
    }
    forall f | f in pushed1 + pushed2
      ensures f in g.ends && g.Adjacent(e, f) && f !in collected'
    {
      var v := if f in pushed1 then g.ends[e].0 else g.ends[e].1;
      assert g.VertexOk(v) && g.Touches(f, v);
    }
    forall t | t <= g.ends.Keys && start in t && g.Closed(t)
      ensures Within(t, collected', queue')
    {
      SearchWithin(g, t, collected, queue, pushed1 + pushed2);
      assert queue' == queue[1..] + (pushed1 + pushed2);
    }
    if e in collected {
      CountNone(queue[1..] + pushed1, pushed2, collected);
      CountNone(queue[1..], pushed1, collected);
    }
  }

  lemma SearchWithin<V, E>(g: Shape<V, E>, t: set<E>, collected: set<E>, queue: seq<E>, pushed: seq<E>)
    requires g.Closed(t) && queue != [] && Within(t, collected, queue) && queue[0] in g.ends
    requires forall f :: f in pushed ==> f in g.ends && g.Adjacent(queue[0], f)
    ensures Within(t, collected + {queue[0]}, queue[1..] + pushed)
  {
  }

  lemma SearchEnd<V, E>(g: Shape<V, E>, start: E, collected: set<E>, queue: seq<E>)
    requires Searching(g, start, collected, queue) && queue == []
    ensures g.Component(start, collected) && g.Closed(collected)
  {
    forall t | t <= g.ends.Keys && start in t && g.Closed(t)
      ensures collected <= t
    {
      assert Within(t, collected, queue);
    }
  }

  lemma ClosedRest<V, E>(g: Shape<V, E>, s: set<E>)
    requires g.Ok() && g.Closed(s)
    ensures g.Closed(g.ends.Keys - s)
  {
    forall e, f | e in g.ends.Keys - s && f in g.ends && g.Adjacent(e, f)
      ensures f in g.ends.Keys - s
    {
      assert g.Adjacent(f, e);
    }
  }

  lemma WholeConnected<V, E>(g: Shape<V, E>, e: E, s: set<E>)
    requires g.Ok() && g.Component(e, s)
    ensures |s| == |g.ends.Keys| <==> g.Connected()
  {
    hide Shape.Ok;
    if |s| == |g.ends.Keys| {
      SubsetSize(s, g.ends.Keys);
      forall t | t <= g.ends.Keys && t != {} && g.Closed(t)
        ensures t == g.ends.Keys
      {
        ComponentMeets(g, e, s, t);
      }
    }
  }

  /** A closed set either contains a component or misses it. */
  lemma ComponentMeets<V, E>(g: Shape<V, E>, e: E, s: set<E>, t: set<E>)
    requires g.Ok() && g.Component(e, s) && g.Closed(t)
    ensures s <= t || s !! t
  {
    hide Shape.Ok;
    ClosedRest(g, t);
    assert e !in t ==> s <= g.ends.Keys - t;
  }

  lemma FewConnected<V, E>(g: Shape<V, E>)
    requires |g.ends.Keys| < 2
    ensures g.Connected()
  {
    forall t | t <= g.ends.Keys && t != {} && g.Closed(t)
      ensures t == g.ends.Keys
    {
      var x :| x in t;
      assert |g.ends.Keys - {x}| == 0;
      assert g.ends.Keys == {x};
    }
  }

  ghost predicate Disjoint<E>(parts: seq<set<E>>) {
    forall j, k :: 0 <= j < k < |parts| ==> parts[j] !! parts[k]
  }

  /** The components found so far: disjoint, and together the closed set `seen`. */
  ghost predicate Islands<V, E>(g: Shape<V, E>, starts: seq<E>, parts: seq<set<E>>, seen: set<E>) {
    && |starts| == |parts| && g.Closed(seen)
    && (forall k :: 0 <= k < |parts| ==> g.Component(starts[k], parts[k]) && parts[k] <= seen)
    && Disjoint(parts)
    && (forall e :: e in seen ==> exists k :: 0 <= k < |parts| && e in parts[k])
  }

  lemma InElems<T>(s: seq<T>, x: T)
    ensures x in s ==> Elems(s) == Elems(s) + {x}
  {
  }

  lemma ElemsHas<T>(s: seq<T>, x: T)
    ensures x in Elems(s) <==> x in s
  {
  }

  lemma IslandsStart<V, E>(g: Shape<V, E>, seen: seq<E>)
    requires seen == []
    ensures Islands(g, [], [], Elems(seen))
  {
  }

  lemma PartHas<V, E>(g: Shape<V, E>, e: E, part: seq<E>)
    requires g.Component(e, Elems(part))
    ensures e in part
  {
  }

  lemma IslandsMore<V, E>(g: Shape<V, E>, starts: seq<E>, parts: seq<set<E>>, seen: seq<E>, e: E, part: seq<E>)
    requires g.Ok() && Islands(g, starts, parts, Elems(seen)) && e in g.ends && e !in seen
             && g.Component(e, Elems(part))
    ensures Islands(g, starts + [e], parts + [Elems(part)], Elems(seen + part))
  {
    hide Shape.Ok;
    var s, p := Elems(seen), Elems(part);
    assert Elems(seen + part) == s + p;
    ElemsHas(seen, e);
    ClosedRest(g, s);
    assert p <= g.ends.Keys - s;
    IslandAdd(g, starts, parts, s, e, p);
  }

  lemma IslandAdd<V, E>(g: Shape<V, E>, starts: seq<E>, parts: seq<set<E>>, s: set<E>, e: E, p: set<E>)
    requires Islands(g, starts, parts, s) && g.Component(e, p) && p !! s
    ensures Islands(g, starts + [e], parts + [p], s + p)
  {
    var parts' := parts + [p];
    forall x | x in s + p
      ensures exists k :: 0 <= k < |parts'| && x in parts'[k]
    {
      if x in s {
        var k :| 0 <= k < |parts| && x in parts[k];
        assert x in parts'[k];
      } else {
        assert x in parts'[|parts|];
      }
    }
    assert g.Closed(s + p) by {
      assert g.Closed(s) && g.Closed(p);
    }
    hide Shape.Component, Shape.Closed;
  }

  lemma IslandsEnd<V, E>(g: Shape<V, E>, starts: seq<E>, parts: seq<set<E>>, seen: seq<E>, edges: seq<E>)
    requires g.Ok() && Islands(g, starts, parts, Elems(seen)) && g.ends.Keys == Elems(edges)
    requires forall e :: e in edges ==> e in seen
    ensures forall e :: e in edges ==> exists k :: 0 <= k < |parts| && e in parts[k]
    ensures |parts| <= 1 <==> g.Connected()
  {
    hide Shape.Ok, Shape.Connected, Shape.Component;
    forall e | e in edges
      ensures exists k :: 0 <= k < |parts| && e in parts[k]
    {
      ElemsHas(seen, e);
    }
    forall e
      ensures e in g.ends ==> e in edges
    {
      ElemsHas(edges, e);
    }
    if |parts| == 0 {
      assert g.ends.Keys == {};
      FewConnected(g);
    } else if |parts| == 1 {
      assert g.ends.Keys <= parts[0];
      OneIsland(g, starts[0], parts[0]);
    } else {
      TwoIslands(g, starts[0], parts[0], starts[1], parts[1]);
    }
  }

  lemma OneIsland<V, E>(g: Shape<V, E>, e: E, s: set<E>)
    requires g.Ok() && g.Component(e, s) && g.ends.Keys <= s
    ensures g.Connected()
  {
    hide Shape.Ok, Shape.Connected;
    assert s == g.ends.Keys;
    WholeConnected(g, e, s);
  }

  lemma TwoIslands<V, E>(g: Shape<V, E>, e: E, s: set<E>, f: E, t: set<E>)
    requires g.Ok() && g.Component(e, s) && g.Component(f, t) && s !! t
    ensures !g.Connected()
  {
    hide Shape.Ok;
    assert f in g.ends.Keys && f !in s;
  }

  lemma StartsIn<V, E>(g: Shape<V, E>, starts: seq<E>, parts: seq<set<E>>, seen: set<E>, edges: seq<E>)
    requires Islands(g, starts, parts, seen) && g.ends.Keys == Elems(edges)
    ensures forall k :: 0 <= k < |starts| ==> starts[k] in edges
    ensures |starts| == |parts|
    ensures forall k :: 0 <= k < |parts| ==> g.Component(starts[k], parts[k])
    ensures Disjoint(parts)
  {
  }
}
