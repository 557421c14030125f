/** Following the boundary of the wall: Wrapcoords.godir and tracepoly of mapconvert.py. */
module TracePoly {
  import opened Basics
  import opened BlockMap

  /** A location that is moved in place around the torus. */
  class Wrapcoords {
    const width: nat
    const height: nat
    var x: int
    var y: int

    ghost predicate Valid(m: Map)
      reads this
    {
      m.Valid() && width == m.width && height == m.height && m.Has(Loc())
    }

    function Loc(): Cell
      reads this
    {
      Cell(x, y)
    }

    constructor (m: Map, x: int, y: int)
      requires m.Valid()
      ensures Valid(m) && Loc() == m.Wrap(x, y)
    {
      this.width, this.height := m.width, m.height;
      ModIsRemainder(x, m.width);
      ModIsRemainder(y, m.height);
      this.x, this.y := x % m.width, y % m.height;
    }

    method GoDir(ghost m: Map, d: Dir)
      requires Valid(m)
      modifies this
      ensures Valid(m) && Loc() == m.Go(old(Loc()), d)
    {
      x := x + Dirs(d).dx;
      y := y + Dirs(d).dy;
      ModIsRemainder(x, width);
      ModIsRemainder(y, height);
      x := x % width;
      y := y % height;
    }
  }

  /** One entry of a polygon: a corner of the unwrapped plane and the unit step leaving it. */
  datatype Point = Point(x: int, y: int, v: Vec)

  type Polygon = seq<Point>

  /** The direction whose step is v. */
  function DirOf(v: Vec): (d: Dir)
    ensures forall e: Dir :: v == Dirs(e) ==> d == e
  {
    if v == Vec(1, 0) then 0
    else if v == Vec(1, -1) then 1
    else if v == Vec(0, -1) then 2
    else if v == Vec(-1, -1) then 3
    else if v == Vec(-1, 0) then 4
    else if v == Vec(-1, 1) then 5
    else if v == Vec(0, 1) then 6
    else 7
  }

  /** The torus edge that a polygon entry walks. */
  function EdgeOf(m: Map, p: Point): Edge
    requires m.Valid()
  {
    Edge(m.Wrap(p.x, p.y), DirOf(p.v))
  }

  function EdgesOf(m: Map, poly: Polygon): (r: seq<Edge>)
    requires m.Valid()
    ensures |r| == |poly| && forall i :: 0 <= i < |r| ==> r[i] == EdgeOf(m, poly[i])
  {
    seq(|poly|, i requires 0 <= i < |poly| => EdgeOf(m, poly[i]))
  }

  ghost predicate Follows(m: Map, path: seq<Edge>, i: nat)
    requires m.Valid() && i + 1 < |path|
  {
    m.Has(path[i].c) && path[i + 1] == Next(m, path[i])
  }

  /** Boundary edges, each the successor of the one before, none twice. */
  ghost predicate Chain(m: Map, path: seq<Edge>)
    requires m.Valid()
  {
    && 0 < |path|
    && (forall i :: 0 <= i < |path| ==> m.Boundary(path[i]))
    && (forall i :: 0 <= i < |path| - 1 ==> Follows(m, path, i))
    && (forall i, j :: 0 <= i < j < |path| ==> path[i] != path[j])
  }

  /** A chain whose last edge leads back to its first. */
  ghost predicate Cycle(m: Map, path: seq<Edge>)
    requires m.Valid()
  {
    Chain(m, path) && Next(m, path[|path| - 1]) == path[0]
  }

  /** A polygon of unit steps in the plane, each entry starting where the one before ended. */
  predicate UnitChain(poly: Polygon) {
    && (forall i :: 0 <= i < |poly| ==> poly[i].v == Dirs(DirOf(poly[i].v)))
    && (forall i :: 0 <= i < |poly| - 1 ==> StepsOn(poly, i))
  }

  predicate StepsOn(poly: Polygon, i: nat)
    requires i + 1 < |poly|
  {
    poly[i + 1].x == poly[i].x + poly[i].v.dx && poly[i + 1].y == poly[i].y + poly[i].v.dy
  }

  /** What a returned polygon is: a closed walk along the boundary, and a unit-step chain of the
      plane whose end is its start again up to multiples of the map size. */
  ghost predicate Traced(m: Map, poly: Polygon)
    requires m.Valid()
  {
    && Cycle(m, EdgesOf(m, poly))
    && UnitChain(poly)
    && var z := poly[|poly| - 1];
       m.Wrap(z.x + z.v.dx, z.y + z.v.dy) == m.Wrap(poly[0].x, poly[0].y)
  }

  /** The cell whose `done` entry a walked edge sets to 1: its left cell, for these directions. */
  predicate MarksDone(m: Map, s: Edge, c: Cell)
    requires m.Valid()
  {
    m.Has(s.c) && s.d in {1, 3, 5, 6, 7} && m.LeftCell(s) == c
  }

  /** The cell whose `done` entry an upward edge sets to -1 in a restricted trace. */
  predicate MarksUp(m: Map, s: Edge, c: Cell)
    requires m.Valid()
  {
    m.Has(s.c) && s.d == 2 && m.Go(s.c, 2) == c
  }

  /** The contents of the `done` map, as a value. */
  ghost function Marks(m: Map, done: array2<int>): (r: map<Cell, int>)
    requires done.Length0 == m.height && done.Length1 == m.width
    reads done
    ensures r.Keys == m.Cells()
  {
    map c | c in m.Cells() :: done[c.y, c.x]
  }

  ghost predicate Marked(m: Map, es: seq<Edge>, up: bool, c: Cell)
    requires m.Valid()
  {
    exists s :: s in es && if up then MarksUp(m, s, c) else MarksDone(m, s, c)
  }

  /** The marks after walking the edges es: 1 on the key cells, or -1 right of upward edges. */
  ghost function After(m: Map, marks: map<Cell, int>, es: seq<Edge>, up: bool): (r: map<Cell, int>)
    requires m.Valid()
    ensures r.Keys == marks.Keys
  {
    map c | c in marks :: if Marked(m, es, up, c) then (if up then -1 else 1) else marks[c]
  }

  lemma AfterExtend(m: Map, marks: map<Cell, int>, es: seq<Edge>, s: Edge, up: bool)
    requires m.Valid()
    ensures After(m, marks, es + [s], up) == After(m, After(m, marks, es, up), [s], up)
  {
    forall c
      ensures Marked(m, es + [s], up, c) <==> Marked(m, es, up, c) || Marked(m, [s], up, c)
    {
      if Marked(m, es, up, c) {
        var r :| r in es && if up then MarksUp(m, r, c) else MarksDone(m, r, c);
        assert r in es + [s];
      }
      if Marked(m, [s], up, c) {
        assert s in es + [s];
      }
    }
  }

  lemma AfterNothing(m: Map, marks: map<Cell, int>, up: bool)
    requires m.Valid()
    ensures After(m, marks, [], up) == marks
  {
  }

  /** A chain that has not come back to its start cannot have run into itself elsewhere. */
  lemma ChainFresh(m: Map, path: seq<Edge>)
    requires m.Valid() && Chain(m, path)
    requires Next(m, path[|path| - 1]) != path[0]
    ensures Next(m, path[|path| - 1]) !in path
  {
    hide Next, Map.NoEdge;
    var r := Next(m, path[|path| - 1]);
    if r in path {
      var k :| 0 <= k < |path| && path[k] == r;
      assert Follows(m, path, k - 1);
      NextInjective(m, path[|path| - 1], path[k - 1]);
      assert false;
    }
  }

  /** The part of tracepoly that records an edge as walked. */
  method MarkDone(m: Map, done: array2<int>, s: Edge)
    requires m.Valid() && done.Length0 == m.height && done.Length1 == m.width && m.Has(s.c)
    modifies done
    ensures Marks(m, done) == After(m, old(Marks(m, done)), [s], false)
  {
    hide Map.Go;
    assert forall c :: Marked(m, [s], false, c) <==> MarksDone(m, s, c) by {
      assert s in [s];
    }
    if s.d == 6 || s.d == 7 {
      done[s.c.y, s.c.x] := 1;
    } else if s.d == 5 {
      var c := m.Go(s.c, 4);
      done[c.y, c.x] := 1;
    } else if s.d == 3 {
      var c := m.Go(s.c, 3);
      done[c.y, c.x] := 1;
    } else if s.d == 1 {
      var c := m.Go(s.c, 2);
      done[c.y, c.x] := 1;
    }
  }

  method MarkUp(m: Map, done: array2<int>, s: Edge)
    requires m.Valid() && done.Length0 == m.height && done.Length1 == m.width && m.Has(s.c)
    modifies done
    ensures Marks(m, done) == After(m, old(Marks(m, done)), [s], true)
  {
    assert forall c :: Marked(m, [s], true, c) <==> MarksUp(m, s, c) by {
      assert s in [s];
    }
    if s.d == 2 {
      var c := m.Go(s.c, 2);
      done[c.y, c.x] := -1;
    }
  }

  /** The i-th ray tested after arriving in direction d. */
  function Ray(d: Dir, i: nat): Dir {
    match i
    case 0 => (d + 3) % 8
    case 1 => (d + 2) % 8
    case 2 => (d + 1) % 8
    case 3 => d
    case 4 => (d + 7) % 8
    case 5 => (d + 6) % 8
    case _ => (d + 5) % 8
  }

  lemma RayStep(d: Dir, i: nat)
    requires i < 6
    ensures (Ray(d, i) + 7) % 8 == Ray(d, i + 1)
  {
  }

  predicate Rejected(w: seq<bool>, d: Dir, i: nat)
    requires |w| == 8
  {
    && (0 < i ==> w[Ray(d, 0)]) && (1 < i ==> w[Ray(d, 1)]) && (2 < i ==> w[Ray(d, 2)])
    && (3 < i ==> w[Ray(d, 3)]) && (4 < i ==> w[Ray(d, 4)]) && (5 < i ==> w[Ray(d, 5)])
  }

  lemma RejectOne(w: seq<bool>, d: Dir, i: nat)
    requires |w| == 8 && Arrives(w, d) && i <= 6 && Rejected(w, d, i) && w[Ray(d, i)]
    ensures i < 6 && Rejected(w, d, i + 1) && (Ray(d, i) + 7) % 8 == Ray(d, i + 1)
  {
    if i < 6 {
      RayStep(d, i);
    }
  }

  lemma StopsAt(w: seq<bool>, d: Dir, i: nat)
    requires |w| == 8 && i <= 6 && Rejected(w, d, i) && !w[Ray(d, i)]
    ensures Turn(w, d) == Ray(d, i)
  {
  }

  /** The inner loop of tracepoly: turn as far left as possible.  At most seven rays are tested. */
  method TurnLeft(m: Map, loc: Cell, from: Dir) returns (dir: Dir)
    requires m.Valid() && m.Has(loc) && Arrives(m.Wedges(loc), from)
    ensures dir == Turn(m.Wedges(loc), from)
  {
    ghost var w, tests := m.Wedges(loc), 0;
    dir := (from + 3) % 8;
    while m.NoEdge(loc, dir)
      invariant 0 <= tests <= 6 && dir == Ray(from, tests) && Rejected(w, from, tests)
      decreases 6 - tests
    {
      RejectOne(w, from, tests);
      dir := (dir + 7) % 8;
      tests := tests + 1;
    }
    StopsAt(w, from, tests);
  }

  /** The points walked so far form a unit-step chain from (x0, y0) in direction d to (x, y). */
  predicate Steps(points: Polygon, x0: int, y0: int, d: Dir, x: int, y: int) {
    && UnitChain(points)
    && if points == [] then x == x0 && y == y0
       else points[0] == Point(x0, y0, Dirs(d)) &&
            var z := points[|points| - 1]; x == z.x + z.v.dx && y == z.y + z.v.dy
  }

  lemma StepsNone(x: int, y: int, d: Dir)
    ensures Steps([], x, y, d, x, y)
  {
  }

  lemma StepsExtend(points: Polygon, x0: int, y0: int, d: Dir, x: int, y: int, e: Dir)
    requires Steps(points, x0, y0, d, x, y) && (points == [] ==> d == e)
    ensures Steps(points + [Point(x, y, Dirs(e))], x0, y0, d, x + Dirs(e).dx, y + Dirs(e).dy)
  {
    var longer := points + [Point(x, y, Dirs(e))];
    forall i | 0 <= i < |longer| - 1
      ensures StepsOn(longer, i)
    {
      assert i < |points| - 1 ==> StepsOn(points, i);
    }
  }

  lemma EdgesExtend(m: Map, points: Polygon, p: Point)
    requires m.Valid()
    ensures EdgesOf(m, points + [p]) == EdgesOf(m, points) + [EdgeOf(m, p)]
  {
  }

  lemma WrapStep(m: Map, x: int, y: int, d: Dir)
    requires m.Valid()
    ensures m.Go(m.Wrap(x, y), d) == m.Wrap(x + Dirs(d).dx, y + Dirs(d).dy)
    ensures Next(m, Edge(m.Wrap(x, y), d)).c == m.Go(m.Wrap(x, y), d)
  {
    ModAdd(x, Dirs(d).dx, m.width);
    ModAdd(y, Dirs(d).dy, m.height);
  }

  /** `here` can be walked after `path`, which started at `start`. */
  ghost predicate Ready(m: Map, path: seq<Edge>, start: Edge, here: Edge)
    requires m.Valid()
  {
    && m.Boundary(here)
    && if path == [] then here == start
       else Chain(m, path) && path[0] == start && here == Next(m, path[|path| - 1]) && here !in path
  }

  lemma ReadyExtend(m: Map, path: seq<Edge>, start: Edge, here: Edge)
    requires m.Valid() && Ready(m, path, start, here)
    ensures Chain(m, path + [here]) && (path + [here])[0] == start
    ensures m.Boundary(Next(m, here))
    ensures Next(m, here) == start ==> Cycle(m, path + [here])
    ensures Next(m, here) != start ==> Ready(m, path + [here], start, Next(m, here))
  {
    NextBoundary(m, here);
    hide Next, Map.Boundary;
    var longer := path + [here];
    forall i | 0 <= i < |longer| - 1
      ensures Follows(m, longer, i)
    {
      assert i < |path| - 1 ==> Follows(m, path, i);
    }
    if Next(m, here) != start {
      ChainFresh(m, path + [here]);
    }
  }

  lemma Visited(m: Map, path: seq<Edge>, here: Edge)
    requires m.Valid() && m.Boundary(here) && here !in path
    ensures m.BoundaryEdges() - (set s | s in path + [here]) < m.BoundaryEdges() - (set s | s in path)
  {
    assert here in m.BoundaryEdges() - (set s | s in path);
  }

  /** Turn left from `here`, moving l to its far end. */
  method Advance(m: Map, l: Wrapcoords, d: Dir) returns (dir: Dir)
    requires l.Valid(m) && m.Boundary(Edge(l.Loc(), d))
    modifies l
    ensures l.Valid(m) && Edge(l.Loc(), dir) == Next(m, Edge(old(l.Loc()), d))
  {
    Transport(m, Edge(l.Loc(), d));
    l.GoDir(m, d);
    dir := TurnLeft(m, l.Loc(), d);
  }

  /** Restricted traces walk no edge that sets a `done` entry to 1. */
  lemma NoDoneMarks(m: Map, marks: map<Cell, int>, s: Edge)
    requires m.Valid() && s.d in {0, 2, 4}
    ensures After(m, marks, [s], false) == marks
  {
    assert forall c :: !Marked(m, [s], false, c);
  }

  /** tracepoly.  `path` is the sequence of torus edges walked.  Without okDirs the whole cycle is
      walked and returned.  With okDirs the walk is given up as soon as it would leave them. */
  method Trace(m: Map, done: array2<int>, x0: int, y0: int, startDir: Dir, okDirs: Option<set<Dir>>)
    returns (poly: Option<Polygon>, ghost path: seq<Edge>)
    requires m.Valid() && done.Length0 == m.height && done.Length1 == m.width
    requires m.Boundary(Edge(m.Wrap(x0, y0), startDir))
    requires okDirs.Some? ==> okDirs.value <= {0, 2, 4} && startDir in okDirs.value
    modifies done
    ensures Chain(m, path) && path[0] == Edge(m.Wrap(x0, y0), startDir)
    ensures okDirs.Some? ==> forall s :: s in path ==> s.d in okDirs.value
    ensures poly.Some? ==> Traced(m, poly.value) && EdgesOf(m, poly.value) == path
    ensures poly.Some? ==> poly.value[0] == Point(x0, y0, Dirs(startDir))
    ensures poly.None? ==> okDirs.Some? && Next(m, path[|path| - 1]).d !in okDirs.value
    ensures Marks(m, done) == if okDirs.None? then After(m, old(Marks(m, done)), path, false)
                              else After(m, old(Marks(m, done)), path[1..], true)
  {
    hide Next, Chain, After, UnitChain, Map.Boundary, Dirs, DirOf, Map.Go, Marks;
    var dir: Dir := startDir;
    var x, y := x0, y0;
    var l := new Wrapcoords(m, x, y);
    var startLoc := l.Loc();
    var points: Polygon := [];
    path := [];
    ghost var marks, up := Marks(m, done), okDirs.Some?;
    ghost var start, here := Edge(startLoc, startDir), Edge(startLoc, startDir);
    AfterNothing(m, marks, up);
    StepsNone(x, y, startDir);
    assert (path + [here])[1..] == [];
    while true
      invariant l.Valid(m) && here == Edge(l.Loc(), dir) && here.c == m.Wrap(x, y)
      invariant Ready(m, path, start, here)
      invariant EdgesOf(m, points) == path && Steps(points, x0, y0, startDir, x, y)
      invariant up ==> dir in okDirs.value && forall s :: s in path ==> s.d in okDirs.value
      invariant !up ==> Marks(m, done) == After(m, marks, path, false)
      invariant up ==> Marks(m, done) == After(m, marks, (path + [here])[1..], true)
      decreases m.BoundaryEdges() - (set s | s in path)
    {
      Visited(m, path, here);
      ReadyExtend(m, path, start, here);
      StepsExtend(points, x0, y0, startDir, x, y, dir);
      EdgesExtend(m, points, Point(x, y, Dirs(dir)));
      AfterExtend(m, marks, path, here, false);
      WrapStep(m, x, y, dir);
      if okDirs.Some? {
        NoDoneMarks(m, Marks(m, done), here);
      }
      points := points + [Point(x, y, Dirs(dir))];
      path := path + [here];
      x := x + Dirs(dir).dx;
      y := y + Dirs(dir).dy;
      MarkDone(m, done, Edge(l.Loc(), dir));
      dir := Advance(m, l, dir);
      here := Next(m, here);
      if l.Loc() == startLoc && dir == startDir {
        break;
      }
      if okDirs.Some? {
        if dir !in okDirs.value {
          return None, path;
        }
        AfterExtend(m, marks, path[1..], here, true);
        assert (path + [here])[1..] == path[1..] + [here];
        MarkUp(m, done, Edge(l.Loc(), dir));
      }
    }
    poly := Some(points);
  }
}
