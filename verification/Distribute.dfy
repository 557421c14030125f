/** random_distribute of mkmap.c: place up to N things on random sites that a test function accepts. */
module Distribute {
  import opened Selection

  const NOT_VALID: int := -1

  /** The corners of the area to place things in, and what the test function says about each of its cells. */
  datatype Area = Area(xmin: int, ymin: int, xmax: int, ymax: int, valid: (int, int) -> int) {
    predicate Site(x: int, y: int) { valid(x, y) != NOT_VALID }

    /** The accepted sites of line y left of column x. */
    function InLine(x: int, y: int): nat
      decreases x - xmin
    {
      if x <= xmin then 0 else InLine(x - 1, y) + if Site(x - 1, y) then 1 else 0
    }

    /** The accepted sites of the lines above line y. */
    function Above(y: int): nat
      decreases y - ymin
    {
      if y <= ymin then 0 else Above(y - 1) + InLine(xmax + 1, y - 1)
    }

    /** The number of the site at (x, y) in the order of the scan. */
    function Rank(x: int, y: int): nat {
      Above(y) + InLine(x, y)
    }

    predicate Fits(map0: array2<int>) {
      0 <= xmin && 0 <= ymin && xmax < map0.Length1 && ymax < map0.Length0
    }

    predicate Has(x: int, y: int) { xmin <= x <= xmax && ymin <= y <= ymax }
  }

  lemma {:induction false} InLineMono(a: Area, x: int, x': int, y: int)
    requires x <= x'
    ensures a.InLine(x, y) <= a.InLine(x', y)
    decreases x' - x
  {
    if x < x' && a.xmin < x' {
      InLineMono(a, x, x' - 1, y);
    }
  }

  lemma {:induction false} AboveMono(a: Area, y: int, y': int)
    requires y <= y'
    ensures a.Above(y) <= a.Above(y')
    decreases y' - y
  {
    if y < y' && a.ymin < y' {
      AboveMono(a, y, y' - 1);
    }
  }

  /** A site of the second scan comes before all sites of the last line. */
  lemma RankBelow(a: Area, x: int, y: int, M: int)
    requires a.Has(x, y) && y < a.ymax && a.Site(x, y) && M == a.Above(a.ymax + 1)
    ensures a.Rank(x, y) < a.Above(y + 1) <= a.Above(a.ymax) <= M
  {
    InLineMono(a, x + 1, a.xmax + 1, y);
    AboveMono(a, y + 1, a.ymax);
    AboveMono(a, a.ymax, a.ymax + 1);
  }

  function Min(a: int, b: int): int { if a <= b then a else b }

  /** The site is among those that the draws take. */
  predicate Picked(a: Area, N: int, M: int, draw: nat -> nat, x: int, y: int) {
    a.Site(x, y) && Takes(draw(a.Rank(x, y)), M - a.Rank(x, y), Need(N, M, draw, a.Rank(x, y)))
  }

  /** The cell (x, y) after the second scan has got to (px, py). */
  ghost predicate CellDone(a: Area, N: int, M: int, draw: nat -> nat, px: int, py: int, x: int, y: int, before: int,
                           now: int) {
    now == if a.Has(x, y) && y < a.ymax && (y < py || (y == py && x < px)) && Picked(a, N, M, draw, x, y)
           then a.valid(x, y) else before
  }

  /** How many things are placed. */
  function Placed(count: int, a: Area, draw: nat -> nat): int {
    if count <= 0 then 0
    else
      var M := a.Above(a.ymax + 1);
      Min(count, M) - Need(Min(count, M), M, draw, a.Above(a.ymax))
  }

  /** Whether something is placed on (x, y): never on line ymax. */
  predicate IsPlaced(count: int, a: Area, draw: nat -> nat, x: int, y: int) {
    var M := a.Above(a.ymax + 1);
    0 < count && a.Has(x, y) && y < a.ymax && Picked(a, Min(count, M), M, draw, x, y)
  }

  /** One line of the first scan: note what the test function says, and count the sites. */
  method TestLine(tmpmap: array2<int>, a: Area, y: int, M0: int) returns (M: int)
    requires a.Fits(tmpmap) && a.ymin <= y <= a.ymax && M0 == a.Above(y)
    requires forall j, i :: a.Has(i, j) && j < y ==> tmpmap[j, i] == a.valid(i, j)
    modifies tmpmap
    ensures M == a.Above(y + 1)
    ensures forall j, i :: a.Has(i, j) && j <= y ==> tmpmap[j, i] == a.valid(i, j)
  {
    M := M0;
    var x := a.xmin;
    while x <= a.xmax
      invariant a.xmin <= x && (a.xmin <= a.xmax ==> x <= a.xmax + 1) && (a.xmax < a.xmin ==> x == a.xmin)
      invariant M == a.Rank(x, y)
      invariant forall j, i :: a.Has(i, j) && (j < y || (j == y && i < x)) ==> tmpmap[j, i] == a.valid(i, j)
    {
      var actualType := a.valid(x, y);
      tmpmap[y, x] := actualType;
      if actualType != NOT_VALID {
        M := M + 1;
      }
      x := x + 1;
    }
    LineEnd(a, x, y);
  }

  lemma LineEnd(a: Area, x: int, y: int)
    requires a.xmax < x && (a.xmin <= a.xmax ==> x == a.xmax + 1) && a.ymin <= y
    ensures a.xmax < a.xmin ==> a.InLine(x, y) == a.InLine(a.xmax + 1, y) || a.xmin < x
    ensures (a.xmax < a.xmin ==> x == a.xmin) ==> a.Rank(x, y) == a.Above(y + 1)
  {
  }

  /** One line of the second scan: take the sites that the draws take. */
  method SelectLine(map0: array2<int>, tmpmap: array2<int>, a: Area, N: int, M: int, draw: nat -> nat, y: int,
                    n0: int, m0: int,
                    ghost was: (int, int) -> int) returns (n: int, m: int)
    requires map0 != tmpmap && a.Fits(map0) && a.Fits(tmpmap) && a.ymin <= y < a.ymax
    requires forall j, i :: a.Has(i, j) ==> tmpmap[j, i] == a.valid(i, j)
    requires 0 <= N <= M == a.Above(a.ymax + 1) && m0 == a.Above(y) && n0 == N - Need(N, M, draw, m0)
    requires forall j, i :: 0 <= j < map0.Length0 && 0 <= i < map0.Length1 ==>
               CellDone(a, N, M, draw, a.xmin, y, i, j, was(i, j), map0[j, i])
    modifies map0
    ensures m == a.Above(y + 1) && n == N - Need(N, M, draw, m)
    ensures forall j, i :: 0 <= j < map0.Length0 && 0 <= i < map0.Length1 ==>
              CellDone(a, N, M, draw, a.xmin, y + 1, i, j, was(i, j), map0[j, i])
  {
    hide Need, Takes, Picked, Area.Above, Area.InLine, Area.Rank;
    n, m := n0, m0;
    var x := a.xmin;
    LineStart(a, y);
    while x <= a.xmax
      invariant a.xmin <= x && (a.xmin <= a.xmax ==> x <= a.xmax + 1) && (a.xmax < a.xmin ==> x == a.xmin)
      invariant m == a.Rank(x, y) && n == N - Need(N, M, draw, m)
      invariant forall j, i :: 0 <= j < map0.Length0 && 0 <= i < map0.Length1 ==>
                  CellDone(a, N, M, draw, x, y, i, j, was(i, j), map0[j, i])
    {
      var actualType := tmpmap[y, x];
      RankNext(a, N, M, draw, x, y);
      if actualType != NOT_VALID {
        if draw(m) % (M - m) < N - n {
          map0[y, x] := actualType;
          n := n + 1;
        }
        m := m + 1;
      }
      x := x + 1;
    }
    LineEnd(a, x, y);
  }

  lemma LineStart(a: Area, y: int)
    ensures a.Rank(a.xmin, y) == a.Above(y)
  {
  }

  /** What the scan does at (x, y) is what Picked and Need say. */
  lemma RankNext(a: Area, N: int, M: int, draw: nat -> nat, x: int, y: int)
    requires a.Has(x, y) && y < a.ymax && 0 <= N <= M == a.Above(a.ymax + 1)
    ensures a.Rank(x + 1, y) == a.Rank(x, y) + if a.Site(x, y) then 1 else 0
    ensures !a.Site(x, y) ==> !Picked(a, N, M, draw, x, y)
    ensures var m := a.Rank(x, y);
            a.Site(x, y) ==> 0 < M - m && (Picked(a, N, M, draw, x, y) <==> draw(m) % (M - m) < Need(N, M, draw, m))
                             && Need(N, M, draw, m + 1)
                                == Need(N, M, draw, m) - if Picked(a, N, M, draw, x, y) then 1 else 0
  {
    hide Need, Takes;
    if a.Site(x, y) {
      RankBelow(a, x, y, M);
      DrawStep(N, M, draw, a.Rank(x, y));
    }
  }

  /** The test in the scan is the one that Need counts; there is no division by zero. */
  lemma DrawStep(N: int, M: int, draw: nat -> nat, m: nat)
    requires 0 <= N <= M && m < M
    ensures 0 < M - m && 0 <= Need(N, M, draw, m) <= M - m
    ensures Takes(draw(m), M - m, Need(N, M, draw, m)) <==> draw(m) % (M - m) < Need(N, M, draw, m)
    ensures Need(N, M, draw, m + 1) == Need(N, M, draw, m) - if Takes(draw(m), M - m, Need(N, M, draw, m)) then 1 else 0
  {
    NeedBounds(N, M, draw, m);
  }

  /** random_distribute: which cells of the map are set, and how many, for every stream of draws. */
  method RandomDistribute(map0: array2<int>, tmpmap: array2<int>, count: int, a: Area, draw: nat -> nat)
    returns (n: int)
    requires map0 != tmpmap && a.Fits(map0) && a.Fits(tmpmap)
    modifies map0, tmpmap
    ensures n == Placed(count, a, draw)
    ensures forall j, i :: 0 <= j < map0.Length0 && 0 <= i < map0.Length1 ==>
              map0[j, i] == if IsPlaced(count, a, draw, i, j) then a.valid(i, j) else old(map0[j, i])
  {
    hide Need, Takes;
    if count <= 0 {
      return 0;
    }
    var N := count;
    ghost var was := (i: int, j: int) => if 0 <= j < map0.Length0 && 0 <= i < map0.Length1 then old(map0[j, i]) else 0;
    n := 0;
    var m, M := 0, 0;
    var y := a.ymin;
    while y <= a.ymax
      invariant a.ymin <= y && (a.ymin <= a.ymax ==> y <= a.ymax + 1) && (a.ymax < a.ymin ==> y == a.ymin)
      invariant M == a.Above(y)
      invariant forall j, i :: a.Has(i, j) && j < y ==> tmpmap[j, i] == a.valid(i, j)
      invariant forall j, i :: 0 <= j < map0.Length0 && 0 <= i < map0.Length1 ==> map0[j, i] == old(map0[j, i])
    {
      M := TestLine(tmpmap, a, y, M);
      y := y + 1;
    }
    if N > M {
      N := M;
    }
    NoneVisited(N, M, draw);
    y := a.ymin;
    while y < a.ymax
      invariant a.ymin <= y && (a.ymin <= a.ymax ==> y <= a.ymax) && (a.ymax < a.ymin ==> y == a.ymin)
      invariant m == a.Above(y) && n == N - Need(N, M, draw, m)
      invariant forall j, i :: a.Has(i, j) ==> tmpmap[j, i] == a.valid(i, j)
      invariant forall j, i :: 0 <= j < map0.Length0 && 0 <= i < map0.Length1 ==>
                  CellDone(a, N, M, draw, a.xmin, y, i, j, was(i, j), map0[j, i])
    {
      n, m := SelectLine(map0, tmpmap, a, N, M, draw, y, n, m, was);
      y := y + 1;
    }
  }

  lemma NoneVisited(N: int, M: int, draw: nat -> nat)
    ensures Need(N, M, draw, 0) == N
  {
  }

  /** The second scan leaves out line ymax, so what is missing is at most the number of sites there. */
  lemma Shortfall(count: int, a: Area, draw: nat -> nat)
    requires a.ymin <= a.ymax
    ensures var missing := Min(if count <= 0 then 0 else count, a.Above(a.ymax + 1)) - Placed(count, a, draw);
            0 <= missing <= a.InLine(a.xmax + 1, a.ymax)
  {
    if 0 < count {
      var M := a.Above(a.ymax + 1);
      AboveMono(a, a.ymax, a.ymax + 1);
      NeedBounds(Min(count, M), M, draw, a.Above(a.ymax));
    }
  }

  /** The wanted number is placed on every stream of draws if and only if nothing is wanted or line ymax
      has no site. */
  lemma AlwaysComplete(count: int, a: Area)
    requires a.ymin <= a.ymax
    ensures (forall draw: nat -> nat ::
               Placed(count, a, draw) == Min(if count <= 0 then 0 else count, a.Above(a.ymax + 1)))
       <==> count <= 0 || a.InLine(a.xmax + 1, a.ymax) == 0
  {
    if 0 < count {
      var M, seen := a.Above(a.ymax + 1), a.Above(a.ymax);
      var N := Min(count, M);
      AboveMono(a, a.ymax, a.ymax + 1);
      PartialScanTakesAll(N, M, seen);
      if seen == M {
        forall draw: nat -> nat
          ensures Placed(count, a, draw) == N
        {
          assert Need(N, M, draw, seen) == 0;
        }
      } else {
        ReluctantNeeds(N, M, seen);
        assert Placed(count, a, Reluctant(M)) != N;
      }
    }
  }

  // ---------------------------------------------------------------- how likely every choice is

  /** Every number is that of a site. */
  lemma {:induction false} SiteInLine(a: Area, k: int, x: int, y: int) returns (sx: int)
    requires a.Above(y) <= k < a.Rank(x, y) && x <= a.xmax + 1
    ensures a.xmin <= sx <= a.xmax && a.Site(sx, y) && a.Rank(sx, y) == k
    decreases x - a.xmin
  {
    if a.Site(x - 1, y) && a.Rank(x - 1, y) == k {
      sx := x - 1;
    } else {
      sx := SiteInLine(a, k, x - 1, y);
    }
  }

  lemma {:induction false} SiteOf(a: Area, k: int, y: int) returns (sx: int, sy: int)
    requires 0 <= k < a.Above(y) && y <= a.ymax
    ensures a.Has(sx, sy) && sy < y && a.Site(sx, sy) && a.Rank(sx, sy) == k
    decreases y - a.ymin
  {
    if k < a.Above(y - 1) {
      sx, sy := SiteOf(a, k, y - 1);
    } else {
      sy := y - 1;
      sx := SiteInLine(a, k, a.xmax + 1, sy);
    }
  }

  /** Of the sites above line ymax, things are placed on just those whose numbers are marked. */
  ghost predicate PlacedJust(count: int, a: Area, draws: seq<nat>, bits: seq<bool>)
    requires |bits| == a.Above(a.ymax)
  {
    forall x, y :: a.Has(x, y) && y < a.ymax && a.Site(x, y) ==>
      0 <= a.Rank(x, y) < |bits| && (IsPlaced(count, a, Stream(draws), x, y) <==> bits[a.Rank(x, y)])
  }

  lemma PlacedIsTaken(count: int, a: Area, draws: seq<nat>, x: int, y: int)
    requires 0 < count && a.Has(x, y) && y < a.ymax && a.Site(x, y)
    requires |draws| == a.Above(a.ymax + 1)
    ensures a.Rank(x, y) < a.Above(a.ymax) <= |draws|
    ensures IsPlaced(count, a, Stream(draws), x, y) <==> SiteTaken(Min(count, |draws|), draws, a.Rank(x, y))
  {
    hide Need;
    RankBelow(a, x, y, |draws|);
  }

  lemma PlacedIsScan(count: int, a: Area, draws: seq<nat>, bits: seq<bool>)
    requires 0 < count && a.ymin <= a.ymax && |draws| == a.Above(a.ymax + 1) && |bits| == a.Above(a.ymax)
    ensures PlacedJust(count, a, draws, bits) <==> ScanTakes(Min(count, |draws|), draws, bits)
  {
    hide IsPlaced, SiteTaken, Area.Above, Area.Rank;
    AboveMono(a, a.ymax, a.ymax + 1);
    var N := Min(count, |draws|);
    forall x, y | a.Has(x, y) && y < a.ymax && a.Site(x, y)
      ensures a.Rank(x, y) < |bits|
      ensures IsPlaced(count, a, Stream(draws), x, y) <==> SiteTaken(N, draws, a.Rank(x, y))
    {
      PlacedIsTaken(count, a, draws, x, y);
    }
    if PlacedJust(count, a, draws, bits) {
      forall k | 0 <= k < |bits|
        ensures SiteTaken(N, draws, k) == bits[k]
      {
        var x, y := SiteOf(a, k, a.ymax);
      }
    }
  }

  /** With M sites, `seen` of them above line ymax, a choice of k of those is placed by
      N! * (M - N)! * C(M - seen, N - k) of the M! fair lists of draws: all choices of as many sites are
      equally likely. */
  lemma EqualChances(count: int, a: Area, bits: seq<bool>)
    requires 0 < count && a.ymin <= a.ymax && |bits| == a.Above(a.ymax)
    ensures var M := a.Above(a.ymax + 1); var N := Min(count, M);
            && |bits| <= M
            && (forall draws :: draws in Lists(N, M, bits)
                  <==> |draws| == M && FairDraws(draws) && PlacedJust(count, a, draws, bits))
            && |Lists(N, M, bits)| == Factorial(N) * Factorial(M - N) * Choose(M - |bits|, N - Ones(bits))
  {
    hide Lists, FairDraws, PlacedJust, ScanTakes, Area.Above, Choose, Factorial;
    AboveMono(a, a.ymax, a.ymax + 1);
    var M := a.Above(a.ymax + 1);
    var N := Min(count, M);
    forall draws
      ensures draws in Lists(N, M, bits) <==> |draws| == M && FairDraws(draws) && PlacedJust(count, a, draws, bits)
    {
      ListsTake(N, M, bits, draws);
      if |draws| == M {
        PlacedIsScan(count, a, draws, bits);
      }
    }
    Chances(N, M, bits);
  }
}
