/** poly_link of mapconvert.py as a whole: sort the polygons of a wall part by their turning, choose how
    distances wrap, and link them. */
module LinkPart {
  import opened Basics
  import opened BlockMap
  import opened TracePoly
  import opened PolyDir
  import opened BoundaryLoops
  import opened NearestPair
  import opened StripWrap
  import opened LinkTree
  import opened Polynodes
  import opened ClosedWalk
  import opened PolyLink

  /** Whether the polygon turns around once to the left (1), to the right (-1), or not at all (0). */
  function Sign(p: Polygon): int
    requires 0 < |p|
  {
    var t := Turning(p, |p|);
    if t > 0 then 1 else if t < 0 then -1 else 0
  }

  ghost predicate NonEmpty(polys: seq<Polygon>) {
    forall i :: 0 <= i < |polys| ==> 0 < |polys[i]|
  }

  /** The polygons with this sign, in order. */
  function Select(polys: seq<Polygon>, sign: int): seq<Polygon>
    requires NonEmpty(polys)
  {
    if polys == [] then [] else
      var rest := polys[..|polys| - 1];
      Select(rest, sign) + if Sign(polys[|polys| - 1]) == sign then [polys[|polys| - 1]] else []
  }

  /** Every polygon is selected by its sign, and by no other. */
  lemma {:induction false} SelectAll(polys: seq<Polygon>)
    requires NonEmpty(polys)
    ensures multiset(Select(polys, -1)) + multiset(Select(polys, 1)) + multiset(Select(polys, 0)) == multiset(polys)
  {
    hide Sign;
    if polys != [] {
      var rest, p := polys[..|polys| - 1], polys[|polys| - 1];
      SelectAll(rest);
      assert polys == rest + [p];
      SignRange(p);
    }
  }

  lemma SignRange(p: Polygon)
    requires 0 < |p|
    ensures Sign(p) == -1 || Sign(p) == 0 || Sign(p) == 1
  {
  }

  lemma {:induction false} SelectSign(polys: seq<Polygon>, sign: int)
    requires NonEmpty(polys)
    ensures forall p :: p in Select(polys, sign) ==> p in polys && p != [] && Sign(p) == sign
  {
    hide Sign;
    if polys != [] {
      SelectSign(polys[..|polys| - 1], sign);
    }
  }

  /** The loop over the polygons in poly_link. */
  method Classify(m: Map, polys: seq<Polygon>) returns (neg: seq<Polygon>, pos: seq<Polygon>, zero: seq<Polygon>)
    requires m.Valid() && AllTraced(m, polys) && NonEmpty(polys)
    ensures neg == Select(polys, -1) && pos == Select(polys, 1) && zero == Select(polys, 0)
  {
    hide Turning, Traced, NoReversal;
    neg, pos, zero := [], [], [];
    var i := 0;
    while i < |polys|
      invariant 0 <= i <= |polys|
      invariant neg == Select(polys[..i], -1) && pos == Select(polys[..i], 1) && zero == Select(polys[..i], 0)
    {
      var p := polys[i];
      assert polys[..i + 1][..i] == polys[..i];
      TracedNoReversal(m, p);
      var direction := PolyDirection(p);
      if direction > 0 {
        pos := pos + [p];
      } else if direction < 0 {
        neg := neg + [p];
      } else {
        zero := zero + [p];
      }
      i := i + 1;
    }
    assert polys[..i] == polys;
  }

  // ---------------------------------------------------------------- displacement of traced polygons

  ghost predicate StepsAlong(p: Polygon) {
    forall i :: 0 <= i < |p| - 1 ==> StepsOn(p, i)
  }

  lemma {:induction false} NetIsDisplacement(p: Polygon)
    requires 0 < |p| && StepsAlong(p)
    ensures var z := p[|p| - 1];
            z.x + z.v.dx == p[0].x + Net(p).dx && z.y + z.v.dy == p[0].y + Net(p).dy
  {
    if |p| == 1 {
      assert p == [p[0]];
      NetOne(p[0]);
    } else {
      assert StepsOn(p, 0);
      forall i | 0 <= i < |p[1..]| - 1
        ensures StepsOn(p[1..], i)
      {
        assert StepsOn(p, i + 1);
      }
      NetIsDisplacement(p[1..]);
    }
  }

  /** The assertions on wrapping polygons never fail: a traced polygon is displaced by a multiple of the
      map size. */
  lemma {:induction false} TracedNet(m: Map, p: Polygon)
    requires m.Valid() && 0 < |p| && Traced(m, p)
    ensures Mod(Net(p).dx, m.width) == 0 && Mod(Net(p).dy, m.height) == 0
  {
    hide Cycle, DirOf, Dirs, Mod, Net, StepsOn;
    NetIsDisplacement(p);
    var z := p[|p| - 1];
    SameModDifference(z.x + z.v.dx, p[0].x, m.width);
    SameModDifference(z.y + z.v.dy, p[0].y, m.height);
  }

  lemma SameModDifference(a: int, b: int, n: nat)
    requires 0 < n && Mod(a, n) == Mod(b, n)
    ensures Mod(a - b, n) == 0
  {
    ModAdd(a, -b, n);
    ModAdd(b, -b, n);
  }

  // ---------------------------------------------------------------- poly_link

  function PlainWrapping(m: Map): Wrapping {
    Wrapping(Plain, m.width, m.height)
  }

  function TorusWrapping(m: Map): Wrapping
    requires m.Valid()
  {
    Wrapping(TorusWrap(m.width, m.height), m.width, m.height)
  }

  function StripWrapping(m: Map, v: Vec): Wrapping
    requires v != Vec(0, 0)
  {
    Wrapping(Strip(v), m.width, m.height)
  }

  lemma WrappingsOk(m: Map)
    requires m.Valid()
    ensures PlainWrapping(m).Ok() && TorusWrapping(m).Ok()
  {
    hide LeastWrap, Faithful;
    PlainLeast();
    TorusLeast(m.width, m.height);
    PlainFaithful(m.width, m.height);
    TorusFaithful(m.width, m.height);
  }

  /** Wrapping along a traced polygon that goes around the map. */
  lemma StripOk(m: Map, p: Polygon)
    requires m.Valid() && Traced(m, p) && Net(p) != Vec(0, 0)
    ensures StripWrapping(m, Net(p)).Ok()
  {
    hide LeastWrap, Faithful, Net, Strip, Mod, UnitChain;
    TracedNonEmpty(m, p);
    TracedNet(m, p);
    StripLeast(Net(p));
    StripFaithful(Net(p), m.width, m.height);
  }

  lemma TracedNonEmpty(m: Map, p: Polygon)
    requires m.Valid() && Traced(m, p)
    ensures 0 < |p|
  {
  }

  /** How distances wrap, and whether the result still has to be cut open: with an outer polygon not at all,
      with only inner polygons around the map, and with two wrapping polygons along their direction.  None
      if the part has none of these forms, or nothing to link. */
  function Choice(m: Map, polys: seq<Polygon>): Option<(Wrapping, bool)>
    requires m.Valid() && NonEmpty(polys)
  {
    var pos, zero := Select(polys, 1), Select(polys, 0);
    if polys == [] then None
    else if zero == [] then
      if pos == [] then Some((TorusWrapping(m), true))
      else if |pos| <= 1 then Some((PlainWrapping(m), false)) else None
    else if pos == [] && |zero| == 2 && Net(zero[0]) != Vec(0, 0) then Some((StripWrapping(m, Net(zero[0])), false))
    else None
  }

  /** The chosen wrapping is as the linking needs it. */
  lemma ChoiceOk(m: Map, polys: seq<Polygon>)
    requires m.Valid() && AllTraced(m, polys) && NonEmpty(polys)
    ensures Choice(m, polys).Some? ==> Choice(m, polys).value.0.Ok()
  {
    hide Wrapping.Ok, Select, Net, Traced;
    WrappingsOk(m);
    var zero := Select(polys, 0);
    SelectSign(polys, 0);
    if |zero| == 2 && Net(zero[0]) != Vec(0, 0) {
      assert zero[0] in polys;
      StripOk(m, zero[0]);
    }
  }

  // ---------------------------------------------------------------- what the choice means

  /** The places of the polygons that turn around with this sign. */
  ghost function Places(polys: seq<Polygon>, sign: int): set<int>
    requires NonEmpty(polys)
  {
    set i | 0 <= i < |polys| && Sign(polys[i]) == sign
  }

  ghost predicate IsFirst(places: set<int>, i: int) {
    i in places && forall j :: j in places ==> i <= j
  }

  lemma PlacesStep(polys: seq<Polygon>, sign: int)
    requires NonEmpty(polys) && polys != []
    ensures var n := |polys| - 1;
            && n !in Places(polys[..n], sign)
            && Places(polys, sign) == Places(polys[..n], sign) + if Sign(polys[n]) == sign then {n} else {}
  {
    hide Sign;
  }

  lemma {:induction false} SelectPlaces(polys: seq<Polygon>, sign: int)
    requires NonEmpty(polys)
    ensures |Select(polys, sign)| == |Places(polys, sign)|
    ensures forall i :: IsFirst(Places(polys, sign), i) ==>
              Select(polys, sign) != [] && 0 <= i < |polys| && Select(polys, sign)[0] == polys[i]
  {
    hide Sign;
    if polys != [] {
      var n := |polys| - 1;
      SelectPlaces(polys[..n], sign);
      PlacesStep(polys, sign);
      forall i | IsFirst(Places(polys, sign), i)
        ensures Select(polys, sign) != [] && Select(polys, sign)[0] == polys[i]
      {
        FirstPlace(polys, sign, i);
      }
    } else {
      assert Places(polys, sign) == {};
    }
  }

  lemma FirstPlace(polys: seq<Polygon>, sign: int, i: int)
    requires NonEmpty(polys) && polys != [] && IsFirst(Places(polys, sign), i)
    ensures var n := |polys| - 1;
            if i < n then IsFirst(Places(polys[..n], sign), i)
            else i == n && Places(polys[..n], sign) == {} && Sign(polys[n]) == sign
  {
    hide Sign, Places;
    var n := |polys| - 1;
    PlacesStep(polys, sign);
    PlacesInside(polys[..n], sign);
    PlacesInside(polys, sign);
    if i == n {
      assert forall j :: j !in Places(polys[..n], sign);
    }
  }

  lemma PlacesInside(polys: seq<Polygon>, sign: int)
    requires NonEmpty(polys)
    ensures forall j :: j in Places(polys, sign) ==> 0 <= j < |polys|
  {
    hide Sign;
  }

  lemma HasFirst(places: set<int>)
    requires places != {}
    ensures exists i :: IsFirst(places, i)
    decreases |places|
  {
    assert exists j :: j in places;
    var j :| j in places;
    if !IsFirst(places, j) {
      var rest := set i | i in places && i < j;
      var k :| k in places && k < j;
      assert k in rest && j !in rest && rest <= places;
      SubsetSize(rest, places);
      HasFirst(rest);
      var i :| IsFirst(rest, i);
      assert forall x :: x in places ==> x in rest || j <= x;
      assert i in rest;
      assert IsFirst(places, i);
    }
  }

  /** poly_link can link the polygons: there is one, and at most one of them turns around to the left and
      none not at all, or none to the left and two not at all, which do go somewhere. */
  ghost predicate CanLink(polys: seq<Polygon>)
    requires NonEmpty(polys)
  {
    && polys != []
    && var outer, around := Places(polys, 1), Places(polys, 0);
       || (around == {} && |outer| <= 1)
       || (outer == {} && |around| == 2 && forall i :: IsFirst(around, i) ==> Net(polys[i]) != Vec(0, 0))
  }

  /** The link v from a to b takes the way that the part asks for: the straight one beside an outer polygon;
      the shortest one on the map if all polygons are inner ones; and the shortest one along the strip if two
      polygons go around the map. */
  ghost predicate RightWay(m: Map, polys: seq<Polygon>, a: Point, b: Point, v: Vec)
    requires m.Valid() && NonEmpty(polys)
  {
    var way := Minus(b, a);
    && (Places(polys, 1) != {} ==> v == way)
    && (Places(polys, 1) == {} == Places(polys, 0) ==> ShortestOnMap(m, way, v))
    && (forall i :: IsFirst(Places(polys, 0), i) ==> ShortestOnStrip(Net(polys[i]), way, v))
  }

  ghost predicate ShortestOnMap(m: Map, way: Vec, v: Vec)
    requires m.Valid()
  {
    && SameSpot(v, way, m.width, m.height)
    && forall u :: SameSpot(u, way, m.width, m.height) ==> Sq(v) <= Sq(u)
  }

  ghost predicate ShortestOnStrip(w: Vec, way: Vec, v: Vec) {
    && (exists k :: v == Minused(way, k, w))
    && forall k :: Sq(v) <= Sq(Minused(way, k, w))
  }

  /** Whether poly_link fails, and whether the outline is still to be cut open, by the turning alone. */
  lemma ChoiceMeans(m: Map, polys: seq<Polygon>)
    requires m.Valid() && NonEmpty(polys)
    ensures Choice(m, polys).Some? <==> CanLink(polys)
    ensures Choice(m, polys).Some? ==>
              (Choice(m, polys).value.1 <==> forall p :: p in polys ==> p != [] && Turning(p, |p|) < 0)
  {
    hide Select, Net, Turning;
    SelectPlaces(polys, 1);
    SelectPlaces(polys, 0);
    SizesMatch(Select(polys, 1), Places(polys, 1));
    SizesMatch(Select(polys, 0), Places(polys, 0));
    AllInner(polys);
  }

  lemma SizesMatch<T>(s: seq<T>, places: set<int>)
    requires |s| == |places|
    ensures s == [] <==> places == {}
    ensures places != {} ==> exists i :: IsFirst(places, i)
  {
    if places != {} {
      HasFirst(places);
    }
  }

  lemma AllInner(polys: seq<Polygon>)
    requires NonEmpty(polys)
    ensures Places(polys, 1) == {} == Places(polys, 0) <==> forall p :: p in polys ==> p != [] && Turning(p, |p|) < 0
  {
    hide Turning;
    if Places(polys, 1) == {} == Places(polys, 0) {
      forall p | p in polys
        ensures p != [] && Turning(p, |p|) < 0
      {
        var i :| 0 <= i < |polys| && polys[i] == p;
        assert i !in Places(polys, 1) && i !in Places(polys, 0);
      }
    }
    if forall p :: p in polys ==> p != [] && Turning(p, |p|) < 0 {
      forall i | 0 <= i < |polys|
        ensures i !in Places(polys, 1) && i !in Places(polys, 0)
      {
        assert polys[i] in polys;
      }
    }
  }

  lemma PlainWay(a: Point, b: Point, v: Vec)
    requires OffsetBy(Plain, a, b, v)
    ensures v == Minus(b, a)
  {
  }

  lemma TorusWay(m: Map, a: Point, b: Point, v: Vec)
    requires m.Valid() && OffsetBy(TorusWrap(m.width, m.height), a, b, v) && SameSpot(v, Minus(b, a), m.width, m.height)
    ensures ShortestOnMap(m, Minus(b, a), v)
  {
    hide Mod, Nearest, Sq, Abs;
    var wrap, way := TorusWrap(m.width, m.height), Minus(b, a);
    TorusLeast(m.width, m.height);
    LeastIsEven(wrap);
    assert EvenAt(wrap, way) && Minus(a, b) == Negated(way);
    SqNegate(wrap(Negated(way)));
    forall u | SameSpot(u, way, m.width, m.height)
      ensures Sq(v) <= Sq(u)
    {
      NearestLeast(way.dx, u.dx, m.width);
      NearestLeast(way.dy, u.dy, m.height);
      SqMono(wrap(way), u);
    }
  }

  lemma StripWay(w: Vec, a: Point, b: Point, v: Vec)
    requires w != Vec(0, 0) && Sq(w) != 0 && OffsetBy(Strip(w), a, b, v)
    ensures ShortestOnStrip(w, Minus(b, a), v)
  {
    hide Sq, StripWrap.Times;
    var way := Minus(b, a);
    assert Minus(a, b) == Negated(way);
    StripOdd(way, w);
    assert v == Minused(way, StripWrap.Times(way, w), w);
    forall k
      ensures Sq(v) <= Sq(Minused(way, k, w))
    {
      StripShortest(way, w, k);
    }
  }

  /** The chosen wrapping gives the right ways. */
  lemma ChoiceWays(m: Map, polys: seq<Polygon>, a: Point, b: Point, v: Vec)
    requires m.Valid() && NonEmpty(polys) && Choice(m, polys).Some? && Choice(m, polys).value.0.Leads(a, b, v)
    ensures RightWay(m, polys, a, b, v)
  {
    hide Select, Net, OffsetBy, SameSpot, Strip, TorusWrap, ShortestOnMap, ShortestOnStrip;
    SelectPlaces(polys, 1);
    SelectPlaces(polys, 0);
    SizesMatch(Select(polys, 1), Places(polys, 1));
    SizesMatch(Select(polys, 0), Places(polys, 0));
    var zero := Select(polys, 0);
    if zero == [] {
      if Select(polys, 1) == [] {
        TorusWay(m, a, b, v);
      } else {
        PlainWay(a, b, v);
      }
    } else {
      SqPositive(Net(zero[0]));
      StripWay(Net(zero[0]), a, b, v);
    }
  }

  /** No right way is shorter than the chosen wrapping makes it. */
  lemma RightIsLeast(m: Map, polys: seq<Polygon>, a: Point, b: Point, u: Vec)
    requires m.Valid() && NonEmpty(polys) && Choice(m, polys).Some? && RightWay(m, polys, a, b, u)
    ensures Dist(Choice(m, polys).value.0.wrap, a, b) <= Sq(u)
  {
    hide Select, Net, SameSpot, Strip, TorusWrap, ShortestOnMap, ShortestOnStrip, Sq;
    SelectPlaces(polys, 1);
    SelectPlaces(polys, 0);
    SizesMatch(Select(polys, 1), Places(polys, 1));
    SizesMatch(Select(polys, 0), Places(polys, 0));
    var zero, way := Select(polys, 0), Minus(b, a);
    if zero == [] {
      if Select(polys, 1) == [] {
        TorusLess(m, way, u);
      }
    } else {
      SqPositive(Net(zero[0]));
      StripLess(Net(zero[0]), way, u);
    }
  }

  lemma TorusLess(m: Map, way: Vec, u: Vec)
    requires m.Valid() && ShortestOnMap(m, way, u)
    ensures Sq(TorusWrap(m.width, m.height)(way)) <= Sq(u)
  {
    hide Mod, Nearest, Sq, Abs;
    NearestLeast(way.dx, u.dx, m.width);
    NearestLeast(way.dy, u.dy, m.height);
    SqMono(TorusWrap(m.width, m.height)(way), u);
  }

  lemma StripLess(w: Vec, way: Vec, u: Vec)
    requires w != Vec(0, 0) && Sq(w) != 0 && ShortestOnStrip(w, way, u)
    ensures Sq(Strip(w)(way)) <= Sq(u)
  {
    hide Sq, StripWrap.Times;
    var k :| u == Minused(way, k, w);
    StripShortest(way, w, k);
  }

  /** Every link takes the right way, and no right way from the polygons linked before to the others is
      shorter. */
  lemma LinkedWays(m: Map, polys: seq<Polygon>, w: Wrapping, nodes: seq<Polynode>, f: Forest, parent: seq<nat>)
    requires m.Valid() && NonEmpty(polys) && Choice(m, polys).Some? && Choice(m, polys).value.0 == w
    requires Linked(polys, w, nodes, f, parent)
    ensures WaysOk(m, polys, f)
  {
    hide Tree, Ordered, Choice, NonEmpty, RightWay, FarApart, Wrapping.Leads, Sq, Dist, NoShorterWay;
    forall a, l | 0 <= a < |f| && l in f[a].links
      ensures LinkWay(m, polys, f, a, l)
    {
      var k :| 0 <= k < |f[a].links| && f[a].links[k] == l;
      assert ShortestAcross(w, nodes, f, a, f[a].links[k], []);
      ChoiceWays(m, polys, f[a].poly[l.start], f[l.target].poly[l.index], l.v);
      CutFar(m, polys, w, nodes, f, a, l);
    }
  }

  lemma CutFar(m: Map, polys: seq<Polygon>, w: Wrapping, nodes: seq<Polynode>, f: Forest, a: nat, l: Link)
    requires m.Valid() && NonEmpty(polys) && Choice(m, polys).Some? && Choice(m, polys).value.0 == w
    requires |nodes| == |f| && ShortestAcross(w, nodes, f, a, l, [])
    requires forall a :: 0 <= a < |f| ==> f[a].poly == nodes[a].poly
    ensures forall b, c :: 0 <= b < l.target <= c < |f| ==> NoShorterWay(m, polys, f[b].poly, f[c].poly, l.v)
  {
    hide Choice, NonEmpty, FarApart, Wrapping.Leads, Sq, Dist, NoShorterWay;
    forall b, c | 0 <= b < l.target <= c < |f|
      ensures NoShorterWay(m, polys, f[b].poly, f[c].poly, l.v)
    {
      assert nodes[c] == (nodes[l.target..] + [])[c - l.target];
      FarIsFar(m, polys, f[b].poly, f[c].poly, l.v);
    }
  }

  lemma FarIsFar(m: Map, polys: seq<Polygon>, p: Polygon, q: Polygon, v: Vec)
    requires m.Valid() && NonEmpty(polys) && Choice(m, polys).Some?
    requires FarApart(Choice(m, polys).value.0, p, q, Sq(v))
    ensures NoShorterWay(m, polys, p, q, v)
  {
    hide Choice, RightWay, Sq, Dist;
    forall i, j, u | 0 <= i < |p| && 0 <= j < |q| && RightWay(m, polys, p[i], q[j], u)
      ensures Sq(v) <= Sq(u)
    {
      RightIsLeast(m, polys, p[i], q[j], u);
    }
  }

  ghost predicate NoShorterWay(m: Map, polys: seq<Polygon>, p: Polygon, q: Polygon, v: Vec)
    requires m.Valid() && NonEmpty(polys)
  {
    forall i, j, u :: 0 <= i < |p| && 0 <= j < |q| && RightWay(m, polys, p[i], q[j], u) ==> Sq(v) <= Sq(u)
  }

  ghost predicate LinkWay(m: Map, polys: seq<Polygon>, f: Forest, a: nat, l: Link)
    requires m.Valid() && NonEmpty(polys)
  {
    && a < |f| && l.target < |f| && l.start < |f[a].poly| && l.index < |f[l.target].poly|
    && RightWay(m, polys, f[a].poly[l.start], f[l.target].poly[l.index], l.v)
    && forall b, c :: 0 <= b < l.target <= c < |f| ==> NoShorterWay(m, polys, f[b].poly, f[c].poly, l.v)
  }

  ghost predicate WaysOk(m: Map, polys: seq<Polygon>, f: Forest)
    requires m.Valid() && NonEmpty(polys)
  {
    forall a, l :: 0 <= a < |f| && l in f[a].links ==> LinkWay(m, polys, f, a, l)
  }

  /** All points are closer than far. */
  ghost predicate InReach(m: Map, polys: seq<Polygon>, far: int) {
    0 <= far && forall p, q :: p in polys && q in polys ==> Close(PlainWrapping(m), p, q, far)
  }

  /** Wrapping brings points closer only. */
  lemma CloseWrapped(m: Map, w: Wrapping, p: Polygon, q: Polygon, far: int)
    requires Close(PlainWrapping(m), p, q, far) && LeastWrap(w.wrap)
    ensures Close(w, p, q, far)
  {
    hide Sq, LeastWrap;
    forall i, j | 0 <= i < |p| && 0 <= j < |q|
      ensures Dist(w.wrap, p[i], q[j]) < far
    {
      assert Dist(PlainWrapping(m).wrap, p[i], q[j]) < far;
      LeastCloser(w.wrap, Minus(q[j], p[i]));
    }
  }

  lemma LeastCloser(wrap: Vec -> Vec, u: Vec)
    requires LeastWrap(wrap)
    ensures Sq(wrap(u)) <= Sq(u)
  {
    hide Sq;
    LeastMoved(wrap, u, Vec(0, 0));
    assert MovedAs(u, Vec(0, 0), wrap(Vec(0, 0))) == u;
  }

  /** The sum of the steps of a polygon, as the loop in poly_link takes it. */
  method SumSteps(p: Polygon) returns (v: Vec)
    ensures v == Net(p)
  {
    v := Vec(0, 0);
    var i := 0;
    NetNone();
    while i < |p|
      invariant 0 <= i <= |p| && v == Net(p[..i])
    {
      assert p[..i + 1] == p[..i] + [p[i]];
      NetAppend(p[..i], [p[i]]);
      NetOne(p[i]);
      v := Vec(v.dx + p[i].v.dx, v.dy + p[i].v.dy);
      i := i + 1;
    }
    assert p[..i] == p;
  }

  /** totlist = [Polynode(p) for p in ...] */
  method MakeNodes(polys: seq<Polygon>, far: int) returns (nodes: seq<Polynode>)
    ensures |nodes| == |polys| && fresh(set q | q in nodes) && Fresh(nodes, far)
    ensures forall i :: 0 <= i < |nodes| ==> nodes[i].poly == polys[i]
  {
    nodes := [];
    var i := 0;
    while i < |polys|
      invariant 0 <= i == |nodes| <= |polys| && (forall q :: q in nodes ==> fresh(q)) && Fresh(nodes, far)
      invariant forall k :: 0 <= k < i ==> nodes[k].poly == polys[k]
    {
      var node := new Polynode(polys[i], far);
      assert forall k :: 0 <= k < |nodes| ==> nodes[k] in nodes && nodes[k] != node;
      nodes := nodes + [node];
      i := i + 1;
    }
  }

  /** What poly_link needs of the polygons it makes nodes for. */
  lemma NodesGood(m: Map, polys: seq<Polygon>, some: seq<Polygon>, nodes: seq<Polynode>, w: Wrapping, far: int)
    requires m.Valid() && AllTraced(m, polys) && NonEmpty(polys) && InReach(m, polys, far) && LeastWrap(w.wrap)
    requires |nodes| == |some| && (forall i :: 0 <= i < |nodes| ==> nodes[i].poly == some[i])
    requires forall p :: p in some ==> p in polys
    ensures GoodPolys(w, (set q | q in nodes), far)
  {
    hide Cycle, Close, UnitChain, LeastWrap;
    forall q | q in nodes
      ensures q.poly in polys && q.poly != [] && KingSteps(q.poly)
    {
      var i :| 0 <= i < |nodes| && nodes[i] == q;
      assert some[i] in polys;
      var k :| 0 <= k < |polys| && polys[k] == some[i];
      UnitChainKingSteps(polys[k]);
    }
    forall p, q | p in nodes && q in nodes
      ensures Close(w, p.poly, q.poly, far)
    {
      CloseWrapped(m, w, p.poly, q.poly, far);
    }
  }

  /** How the polygons of the part wrap, as the code finds it out. */
  method ChooseWrapping(m: Map, polys: seq<Polygon>, neg: seq<Polygon>, pos: seq<Polygon>, zero: seq<Polygon>)
    returns (r: Option<(Wrapping, bool)>)
    requires m.Valid() && NonEmpty(polys) && pos == Select(polys, 1) && zero == Select(polys, 0)
    ensures polys != [] ==> r == Choice(m, polys)
  {
    hide Select;
    if pos != [] && zero == [] {
      r := if |pos| <= 1 then Some((PlainWrapping(m), false)) else None;
    } else if zero == [] && pos == [] {
      r := Some((TorusWrapping(m), true));
    } else {
      r := None;
      if pos == [] && |zero| == 2 {
        var d := SumSteps(zero[0]);
        if d != Vec(0, 0) {
          r := Some((StripWrapping(m, d), false));
        }
      }
    }
  }

  /** poly_link, up to the cutting open of a part that wraps around the map in all directions (which
      `extrawrap` asks for).  None stands for a failing assertion, or for taking a node from an empty list. */
  method PolyLinkPart(m: Map, polys: seq<Polygon>, sqrt: nat -> real, far: int)
    returns (result: Option<seq<Entry>>, extrawrap: bool, ghost w: Wrapping,
             ghost nodes: seq<Polynode>, ghost f: Forest, ghost parent: seq<nat>)
    requires m.Valid() && AllTraced(m, polys) && NonEmpty(polys) && InReach(m, polys, far) && IsSqrt(sqrt)
    ensures result.Some? <==> CanLink(polys)
    ensures result.Some? ==> (extrawrap <==> forall p :: p in polys ==> p != [] && Turning(p, |p|) < 0)
    ensures result.Some? ==> w.width == m.width && w.height == m.height && WaysOk(m, polys, f)
    ensures result.Some? ==>
              && Linked(polys, w, nodes, f, parent)
              && f[0].poly != [] && result.value == EntriesOf(Walk(f, 0, f[0].poly[0].x, f[0].poly[0].y, 0))
  {
    hide Select, NonEmpty, Linked, InReach, IsSqrt, GoodPolys, Walk, Tree, Ordered, AllShortest, AllTraced;
    hide Choice, LeastWrap, Faithful, WaysOk, CanLink, Turning;
    result, extrawrap, w, nodes, f, parent := None, false, PlainWrapping(m), [], [], [];
    var neg, pos, zero := Classify(m, polys);
    var choice := ChooseWrapping(m, polys, neg, pos, zero);
    var list := neg + pos + zero;
    ListFacts(polys);
    NoChoice(m);
    ChoiceMeans(m, polys);
    if choice == None || list == [] {
      return;
    }
    ChoiceOk(m, polys);
    w, extrawrap := choice.value.0, choice.value.1;
    var totlist := MakeNodes(list, far);
    NodesGood(m, polys, list, totlist, w, far);
    var entries;
    entries, nodes, f, parent := LinkPolys(totlist, choice.value.0, sqrt, far);
    result := Some(entries);
    LinkedResult(polys, list, totlist, w, nodes, f, parent);
    ChoiceSize(m, polys);
    LinkedWays(m, polys, w, nodes, f, parent);
  }

  lemma ChoiceSize(m: Map, polys: seq<Polygon>)
    requires m.Valid() && NonEmpty(polys) && Choice(m, polys).Some?
    ensures var w := Choice(m, polys).value.0; w.width == m.width && w.height == m.height
  {
    hide Select, Net;
  }

  lemma NoChoice(m: Map)
    requires m.Valid()
    ensures Choice(m, []) == None
  {
  }

  lemma ListFacts(polys: seq<Polygon>)
    requires NonEmpty(polys)
    ensures var list := Select(polys, -1) + Select(polys, 1) + Select(polys, 0);
            && multiset(list) == multiset(polys) && |list| == |polys| && forall p :: p in list ==> p in polys
  {
    SelectAll(polys);
    var list := Select(polys, -1) + Select(polys, 1) + Select(polys, 0);
    assert multiset(list) == multiset(polys);
    assert |multiset(list)| == |list| && |multiset(polys)| == |polys|;
    forall p | p in list
      ensures p in polys
    {
      assert p in multiset(list);
    }
  }

  function Polys(f: Forest): (s: seq<Polygon>)
    ensures |s| == |f| && forall i :: 0 <= i < |f| ==> s[i] == f[i].poly
  {
    seq(|f|, i requires 0 <= i < |f| => f[i].poly)
  }

  /** The polygons of the part are linked into a tree, every link shortest across its cut. */
  ghost predicate Linked(polys: seq<Polygon>, w: Wrapping, nodes: seq<Polynode>, f: Forest, parent: seq<nat>) {
    && Tree(f, parent) && Ordered(f) && |nodes| == |f| && AllShortest(w, nodes, f, [])
    && (forall a :: 0 <= a < |f| ==> f[a].poly == nodes[a].poly)
    && multiset(Polys(f)) == multiset(polys)
  }

  ghost function NodePolys(nodes: seq<Polynode>): (s: seq<Polygon>)
    ensures |s| == |nodes| && forall i :: 0 <= i < |s| ==> s[i] == nodes[i].poly
  {
    seq(|nodes|, i requires 0 <= i < |nodes| => nodes[i].poly)
  }

  lemma {:induction false} SamePolys(a: seq<Polynode>, b: seq<Polynode>)
    requires multiset(a) == multiset(b)
    ensures multiset(NodePolys(a)) == multiset(NodePolys(b))
    decreases |a|
  {
    hide NodePolys;
    if a == [] {
      NoPolys();
      assert |multiset(b)| == 0;
      assert b == [];
    } else {
      var q := a[0];
      assert q in multiset(b);
      var k :| 0 <= k < |b| && b[k] == q;
      RemoveAt(a, 0);
      RemoveAt(b, k);
      PolysWithout(a, 0);
      PolysWithout(b, k);
      Cancel(multiset(a[..0] + a[1..]), multiset(b[..k] + b[k + 1..]), q);
      SamePolys(a[..0] + a[1..], b[..k] + b[k + 1..]);
    }
  }

  lemma NoPolys()
    ensures NodePolys([]) == []
  {
  }

  lemma PolysWithout(s: seq<Polynode>, k: nat)
    requires k < |s|
    ensures multiset(NodePolys(s)) == multiset(NodePolys(s[..k] + s[k + 1..])) + multiset{s[k].poly}
  {
    RemoveAt(NodePolys(s), k);
    assert NodePolys(s[..k] + s[k + 1..]) == NodePolys(s)[..k] + NodePolys(s)[k + 1..];
  }

  lemma RemoveAt<T>(s: seq<T>, k: nat)
    requires k < |s|
    ensures multiset(s) == multiset(s[..k] + s[k + 1..]) + multiset{s[k]}
  {
    assert s == s[..k] + [s[k]] + s[k + 1..];
  }

  lemma Cancel<T>(a: multiset<T>, b: multiset<T>, q: T)
    requires a + multiset{q} == b + multiset{q}
    ensures a == b
  {
    assert a == a + multiset{q} - multiset{q} && b == b + multiset{q} - multiset{q};
  }

  lemma LinkedResult(polys: seq<Polygon>, list: seq<Polygon>, totlist: seq<Polynode>, w: Wrapping, nodes: seq<Polynode>,
                     f: Forest, parent: seq<nat>)
    requires Tree(f, parent) && Ordered(f) && |nodes| == |f| && AllShortest(w, nodes, f, [])
    requires forall a :: 0 <= a < |f| ==> f[a].poly == nodes[a].poly
    requires multiset(nodes) == multiset(totlist) && |totlist| == |list| && multiset(list) == multiset(polys)
    requires forall i :: 0 <= i < |list| ==> totlist[i].poly == list[i]
    ensures Linked(polys, w, nodes, f, parent) && f[0].poly != []
  {
    hide AllShortest;
    SamePolys(nodes, totlist);
    assert Polys(f) == NodePolys(nodes) && NodePolys(totlist) == list;
  }
}
