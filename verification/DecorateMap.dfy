/** Decorate_map and Border_map of wildmap.c. */
module DecorateMap {
  import opened Basics
  import opened HelixMap
  import opened WildMap
  import opened SmoothRules
  import opened Decorations
  import WallParts

  datatype Home = Home(x: int, y: int)

  /** Some number from 0 to max: any result of the random number generator. */
  method FuzzBound(max: nat) returns (r: nat)
    ensures r <= max
  {
    r :| 0 <= r <= max;
  }

  ghost predicate Sized(wm: WildMap, g: Size) {
    wm.Valid() && g.Big() && wm.t.n == g.Line() * g.height && wm.t.lw == g.Line()
  }

  /** The entries of home for the bases placed; the others hold anything. */
  ghost predicate Homes(homes: seq<Home>, bases: seq<Base>) {
    |bases| <= |homes| && forall i :: 0 <= i < |bases| ==> homes[i] == Home(bases[i].x, bases[i].y)
  }

  /** The team of the i-th base: teams take turns, the highest number first. */
  function TeamOf(i: nat, teams: nat): nat
    requires 0 < teams
  {
    if i == 0 then teams - 1 else if TeamOf(i - 1, teams) == 0 then teams - 1 else TeamOf(i - 1, teams) - 1
  }

  ghost predicate TeamsTakeTurns(bases: seq<Base>, teams: nat) {
    0 < teams && forall i :: 0 <= i < |bases| ==> bases[i].digit == 48 + TeamOf(i, teams)
  }

  /** Taking turns: base i belongs to team teams - 1 - i mod teams. */
  lemma {:induction false} TeamIsRemainder(i: nat, teams: nat)
    requires 0 < teams
    ensures TeamOf(i, teams) == teams - 1 - i % teams
  {
    if 0 < i {
      TeamIsRemainder(i - 1, teams);
      NextRemainder(i - 1, teams);
    }
  }

  lemma NextRemainder(i: nat, n: nat)
    requires 0 < n
    ensures (i + 1) % n == if i % n == n - 1 then 0 else i % n + 1
  {
    var q, r := i / n, i % n;
    if r == n - 1 {
      assert i + 1 == n * (q + 1) + 0;
      RemainderOf(i + 1, n, q + 1, 0);
    } else {
      RemainderOf(i + 1, n, q, r + 1);
    }
  }

  lemma RemainderOf(a: int, n: nat, q: int, r: int)
    requires 0 <= r < n && a == n * q + r
    ensures a % n == r
  {
    var k := a / n - q;
    assert n * k == r - a % n;
    Multiple(n, k);
  }

  // ---------------------------------------------------------------- trying spots

  predicate FarHome(p: Home, x: int, y: int, margin: nat, both: bool) {
    var farX := if x < p.x then x + margin < p.x else x - margin > p.x;
    var farY := if y < p.y then y + margin < p.y else y - margin > p.y;
    if both then farX && farY else farX || farY
  }

  ghost predicate Away(homes: seq<Home>, x: int, y: int, margin: nat, both: bool) {
    forall h :: 0 <= h < |homes| ==> FarHome(homes[h], x, y, margin, both)
  }

  predicate InMargin(g: Size, x: int, y: int, margin: nat) {
    margin <= x < g.width - margin && margin <= y < g.height - margin
  }

  /** The test of the wall behind a cannon, for each type of cannon. */
  predicate GoodWall(v: byte, w: byte) {
    && w != BLOCK_SPACE
    && (w != BLOCK_SOLID ==>
          if v == BLOCK_CANNON_RIGHT then !(w != BLOCK_UP_LEFT && w != BLOCK_DOWN_LEFT)
          else if v == BLOCK_CANNON_DOWN then !(w != BLOCK_UP_LEFT && w != BLOCK_UP_RIGHT)
          else if v == BLOCK_CANNON_LEFT then !(w != BLOCK_UP_RIGHT && w != BLOCK_DOWN_RIGHT)
          else !(w != BLOCK_DOWN_LEFT && w != BLOCK_DOWN_LEFT))
  }

  /** The side of its wall that a cannon is fixed to. */
  function Mount(v: byte): (side: int)
    ensures side in {0, 2, 4, 6}
  {
    if v == BLOCK_CANNON_RIGHT then 4 else if v == BLOCK_CANNON_DOWN then 2
    else if v == BLOCK_CANNON_LEFT then 0 else 6
  }

  /** Cannons are fixed to blocks of wall that are solid at the side of the cannon; only a cannon that points
      up is not fixed to one of the two diagonal blocks that would hold it. */
  lemma GoodWallMeans(v: byte, w: byte)
    requires Cannon(v)
    ensures GoodWall(v, w) <==>
            && (Solid(w) || Diagonal(w)) && WallParts.SolidSide(w as char, Mount(v))
            && !(v == BLOCK_CANNON_UP && w == BLOCK_DOWN_RIGHT)
  {
    hide WallParts.SolidSide;
    WallParts.WaysSolid(w as char, Mount(v));
  }

  predicate SpaceAt(g: Size, d: seq<byte>, x: int, y: int)
    requires g.Fits(d)
  {
    g.Has(x, y) && Space(At(g, d, x, y))
  }

  predicate OpenBlock(b: byte) { Space(b) || Gravity(b) || Worm(b) }

  predicate OpenAt(g: Size, d: seq<byte>, x: int, y: int, dx: int, dy: int)
    requires g.Fits(d)
  {
    g.Has(x + dx, y + dy) && OpenBlock(At(g, d, x + dx, y + dy))
  }

  ghost predicate SpacesAround(g: Size, d: seq<byte>, x: int, y: int)
    requires g.Fits(d)
  {
    forall dx, dy :: -1 <= dx <= 1 && -1 <= dy <= 1 ==> SpaceBeside(g, d, x, y, dx, dy)
  }

  predicate SpaceBeside(g: Size, d: seq<byte>, x: int, y: int, dx: int, dy: int)
    requires g.Fits(d)
  {
    SpaceAt(g, d, x + dx, y + dy)
  }

  ghost predicate OpenAround(g: Size, d: seq<byte>, x: int, y: int, margin: int)
    requires g.Fits(d)
  {
    forall dx, dy :: -margin <= dx <= margin && -margin <= dy <= margin ==> OpenAt(g, d, x, y, dx, dy)
  }

  /** The spot (x, y) will do for a thing of type v: a base stands on solid ground, a cannon is fixed to a
      wall, fuel is a solid block beside a space, a gravity block has only spaces around it, and within three
      cells of a wormhole are only spaces, gravity blocks and wormholes. */
  ghost predicate Passes(g: Size, d: seq<byte>, homes: seq<Home>, v: byte, x: int, y: int)
    requires g.Big() && g.Fits(d)
  {
    if Digit(v) then
      FreeSpot(g, d, x, y)
    else if Cannon(v) then
      InMargin(g, x, y, 1) && SpaceAt(g, d, x, y) && GoodWall(v, At(g, d, WallX(v, x), WallY(v, y)))
      && Away(homes, x, y, 1, true)
    else if v == BLOCK_FUEL then
      InMargin(g, x, y, 1) && Solid(At(g, d, x, y))
      && (SpaceAt(g, d, x + 1, y) || SpaceAt(g, d, x - 1, y) || SpaceAt(g, d, x, y + 1) || SpaceAt(g, d, x, y - 1))
    else if Gravity(v) then
      InMargin(g, x, y, 11) && SpacesAround(g, d, x, y) && Away(homes, x, y, 11, false)
    else
      InMargin(g, x, y, 3) && SpaceAt(g, d, x, y) && OpenAround(g, d, x, y, 3) && Away(homes, x, y, 3, false)
  }

  /** One attempt to place a thing of type v: the spots drawn, and the map before and after. */
  datatype Attempt = Attempt(before: seq<byte>, after: seq<byte>, v: byte, draws: seq<Home>, ok: bool)

  ghost predicate AllFail(g: Size, d: seq<byte>, homes: seq<Home>, v: byte, draws: seq<Home>)
    requires g.Big() && g.Fits(d)
  {
    forall i :: 0 <= i < |draws| ==> !Passes(g, d, homes, v, draws[i].x, draws[i].y)
  }

  /** The first spot drawn that passes is taken; without one, n spots are drawn and nothing is placed. */
  ghost predicate Tried(g: Size, homes: seq<Home>, a: Attempt, n: nat) {
    && g.Big() && g.Fits(a.before) && |a.draws| <= n
    && if a.ok then
         && a.draws != []
         && var k := |a.draws| - 1;
            var x, y := a.draws[k].x, a.draws[k].y;
            && AllFail(g, a.before, homes, a.v, a.draws[..k]) && Passes(g, a.before, homes, a.v, x, y)
            && 0 <= g.Cell(x, y) < |a.before| && a.after == a.before[g.Cell(x, y) := a.v]
       else
         |a.draws| == n && AllFail(g, a.before, homes, a.v, a.draws) && a.after == a.before
  }

  lemma NoDraws(g: Size, d: seq<byte>, homes: seq<Home>, v: byte)
    requires g.Big() && g.Fits(d)
    ensures AllFail(g, d, homes, v, [])
  {
  }

  lemma OneMore(g: Size, d: seq<byte>, homes: seq<Home>, v: byte, draws: seq<Home>, p: Home)
    requires g.Big() && g.Fits(d) && AllFail(g, d, homes, v, draws) && !Passes(g, d, homes, v, p.x, p.y)
    ensures AllFail(g, d, homes, v, draws + [p])
  {
    hide Passes;
  }

  lemma Success(g: Size, d: seq<byte>, d': seq<byte>, homes: seq<Home>, v: byte, draws: seq<Home>, p: Home, n: nat)
    requires g.Big() && g.Fits(d) && AllFail(g, d, homes, v, draws) && Passes(g, d, homes, v, p.x, p.y)
    requires 0 <= g.Cell(p.x, p.y) < |d| && d' == d[g.Cell(p.x, p.y) := v] && |draws| < n
    ensures Tried(g, homes, Attempt(d, d', v, draws + [p], true), n)
  {
    hide Passes;
    assert (draws + [p])[..|draws|] == draws;
  }

  lemma AllFailed(g: Size, d: seq<byte>, homes: seq<Home>, v: byte, draws: seq<Home>, n: nat)
    requires g.Big() && g.Fits(d) && AllFail(g, d, homes, v, draws) && |draws| == n
    ensures Tried(g, homes, Attempt(d, d, v, draws, false), n)
  {
  }

  /** A row of attempts that leads from the map d to the map d': all succeeded but perhaps the last one. */
  ghost predicate Row(g: Size, homes: seq<Home>, row: seq<Attempt>, d: seq<byte>, d': seq<byte>, n: nat) {
    && (row == [] ==> d' == d)
    && (row != [] ==> row[0].before == d && row[|row| - 1].after == d')
    && (forall i :: 0 <= i < |row| ==> Tried(g, homes, row[i], n))
    && (forall i :: 0 <= i < |row| - 1 ==> GoesOn(row, i))
  }

  ghost predicate GoesOn(row: seq<Attempt>, i: nat)
    requires i + 1 < |row|
  {
    row[i].ok && row[i + 1].before == row[i].after
  }

  ghost predicate Failed(row: seq<Attempt>) {
    row != [] && !row[|row| - 1].ok
  }

  lemma NoRow(g: Size, homes: seq<Home>, d: seq<byte>, n: nat)
    ensures Row(g, homes, [], d, d, n)
  {
  }

  lemma RowMore(g: Size, homes: seq<Home>, row: seq<Attempt>, d: seq<byte>, a: Attempt, n: nat)
    requires Row(g, homes, row, d, a.before, n) && !Failed(row) && Tried(g, homes, a, n)
    ensures Row(g, homes, row + [a], d, a.after, n) && (Failed(row + [a]) <==> !a.ok)
  {
    hide Tried;
    var more := row + [a];
    assert row != [] ==> more[0] == row[0];
    forall i | 0 <= i < |more|
      ensures Tried(g, homes, more[i], n)
    {
      if i < |row| {
        assert more[i] == row[i];
      }
    }
    forall i | 0 <= i < |more| - 1
      ensures GoesOn(more, i)
    {
      if i < |row| - 1 {
        assert GoesOn(row, i);
      }
    }
  }

  /** num things have been placed, fewer only if the last attempt has failed. */
  ghost predicate Placed(g: Size, homes: seq<Home>, row: seq<Attempt>, d: seq<byte>, d': seq<byte>, num: int, n: nat) {
    && Row(g, homes, row, d, d', n)
    && |row| <= (if num < 0 then 0 else num) && (!Failed(row) ==> |row| >= num)
  }

  // ---------------------------------------------------------------- bases

  /** Try random spots for a base with the digit v; on success note it in home[i]. */
  method TryBase(wm: WildMap, g: Size, v: byte, home: array<Home>, i: nat, ghost bases: seq<Base>)
    returns (ok: bool, ghost b: Base, ghost a: Attempt)
    requires Sized(wm, g) && i < home.Length && Digit(v)
    requires Decorated(g, wm.data[..], bases) && Bare(g, wm.data[..])
    modifies wm.data, home
    ensures ok ==> b.digit == v && Decorated(g, wm.data[..], bases + [b]) && Bare(g, wm.data[..])
    ensures ok ==> home[..] == old(home[..])[i := Home(b.x, b.y)]
    ensures ok ==> a.draws != [] && a.draws[|a.draws| - 1] == Home(b.x, b.y)
    ensures !ok ==> wm.data[..] == old(wm.data[..]) && home[..] == old(home[..])
    ensures a.before == old(wm.data[..]) && a.after == wm.data[..] && a.v == v && a.ok == ok
    ensures Tried(g, [], a, wm.t.n)
  {
    hide Decorated, Bare, Passes, Tried, AllFail;
    ghost var d, draws := wm.data[..], [];
    FitsMap(wm, g);
    NoDraws(g, d, [], v);
    ok, b, a := false, Base(0, 0, v), Attempt(d, d, v, [], false);
    var tries := wm.t.n;
    while tries > 0 && !ok
      invariant 0 <= tries
      invariant !ok ==> wm.data[..] == d && home[..] == old(home[..])
      invariant !ok ==> AllFail(g, d, [], v, draws) && |draws| == wm.t.n - tries
      invariant ok ==> b.digit == v && Decorated(g, wm.data[..], bases + [b]) && Bare(g, wm.data[..])
      invariant ok ==> home[..] == old(home[..])[i := Home(b.x, b.y)]
      invariant ok ==> a.before == d && a.after == wm.data[..] && a.v == v && a.ok && Tried(g, [], a, wm.t.n)
      invariant ok ==> a.draws != [] && a.draws[|a.draws| - 1] == Home(b.x, b.y)
      decreases tries, !ok
    {
      var rx := FuzzBound(g.width - 5);
      var ry := FuzzBound(g.height - 5);
      var x, y := 2 + rx, 2 + ry;
      var base := x + y * wm.t.lw;
      SpotCells(g, wm.data[..], x, y);
      SpotPasses(g, d, v, x, y);
      if wm.data[base] == BLOCK_SPACE && wm.data[base + wm.t.lw] == BLOCK_SOLID
         && wm.data[base - wm.t.lw] == BLOCK_SPACE && wm.data[base - 2 * wm.t.lw] == BLOCK_SPACE
         && wm.data[base - 1] == BLOCK_SPACE && wm.data[base + 1] == BLOCK_SPACE {
        PutBase(g, wm.data[..], bases, x, y, v);
        wm.data[base] := v;
        home[i] := Home(x, y);
        Success(g, d, wm.data[..], [], v, draws, Home(x, y), wm.t.n);
        ok, b, a := true, Base(x, y, v), Attempt(d, wm.data[..], v, draws + [Home(x, y)], true);
      } else {
        OneMore(g, d, [], v, draws, Home(x, y));
        draws := draws + [Home(x, y)];
        tries := tries - 1;
      }
    }
    if !ok {
      a := Attempt(d, d, v, draws, false);
      AllFailed(g, d, [], v, draws, wm.t.n);
    }
  }

  lemma SpotPasses(g: Size, d: seq<byte>, v: byte, x: int, y: int)
    requires g.Big() && g.Fits(d) && Digit(v)
    ensures Passes(g, d, [], v, x, y) <==> FreeSpot(g, d, x, y)
  {
  }

  /** The cells around a spot, as array places. */
  lemma SpotCells(g: Size, d: seq<byte>, x: int, y: int)
    requires g.Big() && g.Fits(d) && 2 <= x <= g.width - 3 && 2 <= y <= g.height - 3
    ensures var c, lw := g.Cell(x, y), g.Line();
            && c == x + y * lw && 0 <= c - 2 * lw && c + lw < |d|
            && (FreeSpot(g, d, x, y) <==> d[c] == BLOCK_SPACE && d[c + lw] == BLOCK_SOLID && d[c - lw] == BLOCK_SPACE
                                          && d[c - 2 * lw] == BLOCK_SPACE && d[c - 1] == BLOCK_SPACE
                                          && d[c + 1] == BLOCK_SPACE)
  {
    CellNeighbours(g, x, y);
    CellInside(g, x, y + 1);
    CellInside(g, x, y - 2);
  }

  /** The bases are what the attempts that succeeded have placed. */
  ghost predicate BasesOf(bases: seq<Base>, row: seq<Attempt>) {
    && |row| == |bases| + (if Failed(row) then 1 else 0)
    && forall i :: 0 <= i < |bases| ==> BaseOf(bases[i], row[i])
  }

  ghost predicate BaseOf(b: Base, a: Attempt) {
    a.v == b.digit && a.draws != [] && a.draws[|a.draws| - 1] == Home(b.x, b.y)
  }

  /** The first loop of Decorate_map: the bases. */
  method PlaceBases(wm: WildMap, g: Size, home: array<Home>, teams: nat)
    returns (ghost bases: seq<Base>, ghost row: seq<Attempt>)
    requires Sized(wm, g) && 1 <= teams <= 10 && Walls(wm.data[..])
    modifies wm.data, home
    ensures Decorated(g, wm.data[..], bases) && Homes(home[..], bases) && TeamsTakeTurns(bases, teams)
    ensures Placed(g, [], row, old(wm.data[..]), wm.data[..], home.Length, wm.t.n) && BasesOf(bases, row)
    ensures forall i :: 0 <= i < |row| ==> Digit(row[i].v)
  {
    hide Decorated, Bare, Walls, Row, Tried;
    ghost var d := wm.data[..];
    bases, row := [], [];
    NoRow(g, [], d, wm.t.n);
    StartDecorated(g, wm.data[..]);
    StartBare(g, wm.data[..]);
    var team: int := teams;
    var i, ok := 0, true;
    while i < home.Length && ok
      invariant 0 <= i <= home.Length && (ok ==> |bases| == i) && |bases| <= i
      invariant ok ==> team == if i == 0 then teams else TeamOf(i - 1, teams)
      invariant Decorated(g, wm.data[..], bases) && Bare(g, wm.data[..])
      invariant Homes(home[..], bases) && TeamsTakeTurns(bases, teams)
      invariant Row(g, [], row, d, wm.data[..], wm.t.n) && (Failed(row) <==> !ok) && BasesOf(bases, row)
      invariant |row| == (if ok then i else i + 1) <= home.Length
      invariant forall k :: 0 <= k < |row| ==> Digit(row[k].v)
      decreases home.Length - i, ok
    {
      var next := team - 1;
      if next < 0 {
        next := teams - 1;
      }
      ghost var b, a;
      ok, b, a := TryBase(wm, g, (48 + next) as byte, home, i, bases);
      RowMore(g, [], row, d, a, wm.t.n);
      row := row + [a];
      if ok {
        team := next;
        bases := bases + [b];
        i := i + 1;
      }
    }
  }

  lemma StartBare(g: Size, d: seq<byte>)
    requires g.Fits(d) && Walls(d)
    ensures Bare(g, d)
  {
    forall x, y | g.Has(x, y)
      ensures Unarmed(At(g, d, x, y))
    {
      CellInside(g, x, y);
    }
  }

  /** Are all homes more than margin away from (x, y), in one direction or (both) in both? */
  method AllFar(home: array<Home>, x: int, y: int, margin: nat, both: bool) returns (ok: bool)
    ensures ok <==> Away(home[..], x, y, margin, both)
  {
    var h := 0;
    while h < home.Length && FarHome(home[h], x, y, margin, both)
      invariant 0 <= h <= home.Length
      invariant forall k :: 0 <= k < h ==> FarHome(home[k], x, y, margin, both)
    {
      h := h + 1;
    }
    ok := h == home.Length;
  }

  lemma FarIsDistant(homes: seq<Home>, bases: seq<Base>, v: byte, x: int, y: int, margin: nat, both: bool)
    requires Homes(homes, bases) && Away(homes, x, y, margin, both)
    requires (Cannon(v) ==> both && margin >= 1) && (Gravity(v) ==> margin >= 11) && (Worm(v) ==> margin >= 3)
    ensures AllDistant(v, x, y, bases)
  {
    forall i | 0 <= i < |bases|
      ensures DistanceOk(v, x, y, bases[i])
    {
      assert FarHome(homes[i], x, y, margin, both);
    }
  }

  /** v has been put on the space at (x, y), and nothing else has changed. */
  predicate IsPut(g: Size, d: seq<byte>, d': seq<byte>, x: int, y: int, v: byte) {
    && g.Fits(d) && g.Has(x, y) && Space(At(g, d, x, y))
    && 0 <= g.Cell(x, y) < |d| && d' == d[g.Cell(x, y) := v]
  }

  /** Put a thing that keeps its distance on a space. */
  method PutThing(wm: WildMap, g: Size, x: int, y: int, v: byte, home: array<Home>, ghost margin: nat, ghost both: bool,
                  ghost bases: seq<Base>)
    requires Sized(wm, g) && g.Has(x, y) && Decorated(g, wm.data[..], bases) && Homes(home[..], bases)
    requires Space(At(g, wm.data[..], x, y)) && (Cannon(v) || Gravity(v) || Worm(v))
    requires Away(home[..], x, y, margin, both)
    requires (Cannon(v) ==> both && margin >= 1) && (Gravity(v) ==> margin >= 11) && (Worm(v) ==> margin >= 3)
    requires Cannon(v) ==> g.Has(WallX(v, x), WallY(v, y)) && Holder(v, At(g, wm.data[..], WallX(v, x), WallY(v, y)))
    modifies wm.data
    ensures Decorated(g, wm.data[..], bases)
    ensures AllDistant(v, x, y, bases) && IsPut(g, old(wm.data[..]), wm.data[..], x, y, v)
  {
    hide Decorated, At, Holder, Away;
    FitsMap(wm, g);
    FarIsDistant(home[..], bases, v, x, y, margin, both);
    DistantNotNeeded(v, x, y, bases);
    PutKeeps(g, wm.data[..], bases, x, y, v);
    wm.data[x + y * wm.t.lw] := v;
  }

  lemma FitsMap(wm: WildMap, g: Size)
    requires Sized(wm, g)
    ensures g.Fits(wm.data[..]) && g.Big()
  {
  }

  lemma CannonPasses(g: Size, d: seq<byte>, homes: seq<Home>, v: byte, x: int, y: int)
    requires g.Big() && g.Fits(d) && Cannon(v) && InMargin(g, x, y, 1)
    ensures g.Has(WallX(v, x), WallY(v, y))
    ensures var w := At(g, d, WallX(v, x), WallY(v, y));
            && (Passes(g, d, homes, v, x, y) <==>
                  Space(At(g, d, x, y)) && GoodWall(v, w) && Away(homes, x, y, 1, true))
            && (GoodWall(v, w) ==> Holder(v, w))
  {
    hide At, Away;
  }

  /** Try random spots for a cannon. */
  method TryCannon(wm: WildMap, g: Size, v: byte, wallOffset: int, home: array<Home>, ghost bases: seq<Base>)
    returns (ok: bool, ghost a: Attempt)
    requires Sized(wm, g) && Decorated(g, wm.data[..], bases) && Homes(home[..], bases)
    requires Cannon(v) && wallOffset == g.Cell(WallX(v, 0), WallY(v, 0))
    modifies wm.data
    ensures Decorated(g, wm.data[..], bases)
    ensures a.before == old(wm.data[..]) && a.after == wm.data[..] && a.v == v && a.ok == ok
    ensures Tried(g, home[..], a, wm.t.n)
  {
    hide Decorated, Homes, Away, Passes, Tried, AllFail, GoodWall;
    ghost var d, draws := wm.data[..], [];
    FitsMap(wm, g);
    NoDraws(g, d, home[..], v);
    ok, a := false, Attempt(d, d, v, [], false);
    var margin := 1;
    var tries := wm.t.n;
    while tries > 0 && !ok
      invariant 0 <= tries && Decorated(g, wm.data[..], bases)
      invariant !ok ==> wm.data[..] == d && AllFail(g, d, home[..], v, draws) && |draws| == wm.t.n - tries
      invariant ok ==> a.before == d && a.after == wm.data[..] && a.v == v && a.ok && Tried(g, home[..], a, wm.t.n)
      decreases tries, !ok
    {
      var rx := FuzzBound(g.width - 2 * margin - 1);
      var ry := FuzzBound(g.height - 2 * margin - 1);
      var x, y := margin + rx, margin + ry;
      var cannon := x + y * wm.t.lw;
      WallCell(g, d, v, x, y, wallOffset);
      CannonPasses(g, d, home[..], v, x, y);
      tries := tries - 1;
      if wm.data[cannon] == BLOCK_SPACE && GoodWall(v, wm.data[cannon + wallOffset]) {
        var far := AllFar(home, x, y, margin, true);
        if far {
          PutThing(wm, g, x, y, v, home, margin, true, bases);
          ok := true;
        }
      }
      if ok {
        Success(g, d, wm.data[..], home[..], v, draws, Home(x, y), wm.t.n);
        a := Attempt(d, wm.data[..], v, draws + [Home(x, y)], true);
      } else {
        OneMore(g, d, home[..], v, draws, Home(x, y));
        draws := draws + [Home(x, y)];
      }
    }
    if !ok {
      a := Attempt(d, d, v, draws, false);
      AllFailed(g, d, home[..], v, draws, wm.t.n);
    }
  }

  lemma WallCell(g: Size, d: seq<byte>, v: byte, x: int, y: int, off: int)
    requires g.Big() && g.Fits(d) && 1 <= x <= g.width - 2 && 1 <= y <= g.height - 2
    requires Cannon(v) && off == g.Cell(WallX(v, 0), WallY(v, 0))
    ensures g.Has(x, y) && g.Has(WallX(v, x), WallY(v, y))
    ensures var c := g.Cell(x, y);
            && c == x + y * g.Line() && 0 <= c < |d| && 0 <= c + off < |d|
            && d[c] == At(g, d, x, y) && d[c + off] == At(g, d, WallX(v, x), WallY(v, y))
  {
    CellNeighbours(g, x, y);
    CellInside(g, x, y);
    CellInside(g, WallX(v, x), WallY(v, y));
  }

  /** The second loop of Decorate_map: the cannons. */
  method PlaceCannons(wm: WildMap, g: Size, num: int, home: array<Home>, ghost bases: seq<Base>)
    returns (ghost row: seq<Attempt>)
    requires Sized(wm, g) && Decorated(g, wm.data[..], bases) && Homes(home[..], bases)
    modifies wm.data
    ensures Decorated(g, wm.data[..], bases)
    ensures Placed(g, home[..], row, old(wm.data[..]), wm.data[..], num, wm.t.n)
    ensures forall i :: 0 <= i < |row| ==> Cannon(row[i].v)
  {
    hide Decorated, Homes, Row, Tried;
    row := [];
    ghost var d := wm.data[..];
    NoRow(g, home[..], d, wm.t.n);
    var i, ok := 0, true;
    while i < num && ok
      invariant Decorated(g, wm.data[..], bases) && Row(g, home[..], row, d, wm.data[..], wm.t.n)
      invariant 0 <= i == |row| && (i <= num || i == 0) && (Failed(row) <==> !ok)
      invariant forall k :: 0 <= k < |row| ==> Cannon(row[k].v)
      decreases num - i
    {
      ghost var a;
      var r := FuzzBound(3);
      var lw: int := wm.t.lw;
      var v, off := if r == 0 then BLOCK_CANNON_RIGHT else if r == 1 then BLOCK_CANNON_DOWN
                    else if r == 2 then BLOCK_CANNON_LEFT else BLOCK_CANNON_UP,
                    if r == 0 then 1 else if r == 1 then lw else if r == 2 then -1 else -lw;
      ok, a := TryCannon(wm, g, v, off, home, bases);
      RowMore(g, home[..], row, d, a, wm.t.n);
      row := row + [a];
      i := i + 1;
    }
  }

  lemma FuelPasses(g: Size, d: seq<byte>, homes: seq<Home>, x: int, y: int)
    requires g.Big() && g.Fits(d) && InMargin(g, x, y, 1)
    ensures var c, lw := g.Cell(x, y), g.Line();
            && c == x + y * lw && 0 <= c - lw && c + lw < |d|
            && (Passes(g, d, homes, BLOCK_FUEL, x, y) <==>
                  && d[c] == BLOCK_SOLID
                  && !(d[c + 1] != BLOCK_SPACE && d[c - 1] != BLOCK_SPACE
                       && d[c + lw] != BLOCK_SPACE && d[c - lw] != BLOCK_SPACE))
  {
    CellNeighbours(g, x, y);
    CellInside(g, x, y + 1);
    CellInside(g, x, y - 1);
  }

  /** Try random spots for fuel. */
  method TryFuel(wm: WildMap, g: Size, v: byte, home: array<Home>, ghost bases: seq<Base>)
    returns (ok: bool, ghost a: Attempt)
    requires Sized(wm, g) && Decorated(g, wm.data[..], bases) && Homes(home[..], bases)
    requires v == BLOCK_FUEL
    modifies wm.data
    ensures Decorated(g, wm.data[..], bases)
    ensures a.before == old(wm.data[..]) && a.after == wm.data[..] && a.v == v && a.ok == ok
    ensures Tried(g, home[..], a, wm.t.n)
  {
    hide Decorated, Homes, Away, Passes, Tried, AllFail;
    ghost var d, draws := wm.data[..], [];
    FitsMap(wm, g);
    NoDraws(g, d, home[..], v);
    ok, a := false, Attempt(d, d, v, [], false);
    var margin := 1;
    var tries := wm.t.n;
    while tries > 0 && !ok
      invariant 0 <= tries && Decorated(g, wm.data[..], bases)
      invariant !ok ==> wm.data[..] == d && AllFail(g, d, home[..], v, draws) && |draws| == wm.t.n - tries
      invariant ok ==> a.before == d && a.after == wm.data[..] && a.v == v && a.ok && Tried(g, home[..], a, wm.t.n)
      decreases tries, !ok
    {
      var rx := FuzzBound(g.width - 2 * margin - 1);
      var ry := FuzzBound(g.height - 2 * margin - 1);
      var x, y := margin + rx, margin + ry;
      var fuel := x + y * wm.t.lw;
      Around(g, wm.data[..], x, y);
      FuelPasses(g, d, home[..], x, y);
      tries := tries - 1;
      if wm.data[fuel] == BLOCK_SOLID
         && !(wm.data[fuel + 1] != BLOCK_SPACE && wm.data[fuel - 1] != BLOCK_SPACE
              && wm.data[fuel + wm.t.lw] != BLOCK_SPACE && wm.data[fuel - wm.t.lw] != BLOCK_SPACE) {
        FuelDistant(x, y, bases);
        PutKeeps(g, wm.data[..], bases, x, y, BLOCK_FUEL);
        wm.data[fuel] := BLOCK_FUEL;
        ok := true;
      }
      if ok {
        Success(g, d, wm.data[..], home[..], v, draws, Home(x, y), wm.t.n);
        a := Attempt(d, wm.data[..], v, draws + [Home(x, y)], true);
      } else {
        OneMore(g, d, home[..], v, draws, Home(x, y));
        draws := draws + [Home(x, y)];
      }
    }
    if !ok {
      a := Attempt(d, d, v, draws, false);
      AllFailed(g, d, home[..], v, draws, wm.t.n);
    }
  }

  /** The third loop of Decorate_map: fuel in walls that border on space. */
  method PlaceFuel(wm: WildMap, g: Size, num: int, home: array<Home>, ghost bases: seq<Base>)
    returns (ghost row: seq<Attempt>)
    requires Sized(wm, g) && Decorated(g, wm.data[..], bases) && Homes(home[..], bases)
    modifies wm.data
    ensures Decorated(g, wm.data[..], bases)
    ensures Placed(g, home[..], row, old(wm.data[..]), wm.data[..], num, wm.t.n)
    ensures forall i :: 0 <= i < |row| ==> row[i].v == BLOCK_FUEL
  {
    hide Decorated, Homes, Row, Tried;
    row := [];
    ghost var d := wm.data[..];
    NoRow(g, home[..], d, wm.t.n);
    var i, ok := 0, true;
    while i < num && ok
      invariant Decorated(g, wm.data[..], bases) && Row(g, home[..], row, d, wm.data[..], wm.t.n)
      invariant 0 <= i == |row| && (i <= num || i == 0) && (Failed(row) <==> !ok)
      invariant forall k :: 0 <= k < |row| ==> row[k].v == BLOCK_FUEL
      decreases num - i
    {
      ghost var a;
      ok, a := TryFuel(wm, g, BLOCK_FUEL, home, bases);
      RowMore(g, home[..], row, d, a, wm.t.n);
      row := row + [a];
      i := i + 1;
    }
  }

  lemma FuelDistant(x: int, y: int, bases: seq<Base>)
    ensures AllDistant(BLOCK_FUEL, x, y, bases)
  {
  }

  /** The cells around a cell, as array places. */
  lemma Around(g: Size, d: seq<byte>, x: int, y: int)
    requires g.Big() && g.Fits(d) && 1 <= x <= g.width - 2 && 1 <= y <= g.height - 2
    ensures var c, lw := g.Cell(x, y), g.Line();
            && g.Has(x, y) && c == x + y * lw && 0 <= c - lw - 1 && c + lw + 1 < |d| && d[c] == At(g, d, x, y)
  {
    CellNeighbours(g, x, y);
    CellNeighbours(g, x, y + 1);
    CellNeighbours(g, x, y - 1);
    CellInside(g, x, y);
    CellInside(g, x + 1, y + 1);
    CellInside(g, x - 1, y - 1);
  }

  lemma GravityPasses(g: Size, d: seq<byte>, homes: seq<Home>, v: byte, x: int, y: int)
    requires g.Big() && g.Fits(d) && InMargin(g, x, y, 11) && Gravity(v)
    ensures Passes(g, d, homes, v, x, y) <==> SpacesAround(g, d, x, y) && Away(homes, x, y, 11, false)
    ensures SpacesAround(g, d, x, y) ==> Space(At(g, d, x, y))
  {
    hide Away, At;
    NineSpaces(g, d, x, y);
  }

  lemma GravityCells(g: Size, d: seq<byte>, x: int, y: int)
    requires g.Big() && g.Fits(d) && InMargin(g, x, y, 11)
    ensures var c, lw := g.Cell(x, y), g.Line();
            && c == x + y * lw && 0 <= c - lw - 1 && c + lw + 1 < |d|
            && (SpacesAround(g, d, x, y) <==>
                  !(d[c] != BLOCK_SPACE || d[c + 1] != BLOCK_SPACE || d[c - 1] != BLOCK_SPACE
                    || d[c + lw] != BLOCK_SPACE || d[c - lw] != BLOCK_SPACE || d[c + lw + 1] != BLOCK_SPACE
                    || d[c - lw + 1] != BLOCK_SPACE || d[c + lw - 1] != BLOCK_SPACE || d[c - lw - 1] != BLOCK_SPACE))
  {
    hide SpacesAround;
    CellNeighbours(g, x, y);
    CellNeighbours(g, x, y + 1);
    CellNeighbours(g, x, y - 1);
    CellInside(g, x + 1, y + 1);
    CellInside(g, x - 1, y - 1);
    NineSpaces(g, d, x, y);
  }

  lemma NineSpaces(g: Size, d: seq<byte>, x: int, y: int)
    requires g.Fits(d)
    ensures SpacesAround(g, d, x, y) <==>
            && SpaceAt(g, d, x - 1, y - 1) && SpaceAt(g, d, x, y - 1) && SpaceAt(g, d, x + 1, y - 1)
            && SpaceAt(g, d, x - 1, y) && SpaceAt(g, d, x, y) && SpaceAt(g, d, x + 1, y)
            && SpaceAt(g, d, x - 1, y + 1) && SpaceAt(g, d, x, y + 1) && SpaceAt(g, d, x + 1, y + 1)
  {
    hide SpaceAt;
    if SpacesAround(g, d, x, y) {
      assert SpaceBeside(g, d, x, y, -1, -1) && SpaceBeside(g, d, x, y, 0, -1) && SpaceBeside(g, d, x, y, 1, -1);
      assert SpaceBeside(g, d, x, y, -1, 0) && SpaceBeside(g, d, x, y, 0, 0) && SpaceBeside(g, d, x, y, 1, 0);
      assert SpaceBeside(g, d, x, y, -1, 1) && SpaceBeside(g, d, x, y, 0, 1) && SpaceBeside(g, d, x, y, 1, 1);
    }
  }

  /** Try random spots for a gravity block. */
  method TryGravity(wm: WildMap, g: Size, v: byte, home: array<Home>, ghost bases: seq<Base>)
    returns (ok: bool, ghost a: Attempt)
    requires Sized(wm, g) && Decorated(g, wm.data[..], bases) && Homes(home[..], bases)
    requires Gravity(v)
    modifies wm.data
    ensures Decorated(g, wm.data[..], bases)
    ensures a.before == old(wm.data[..]) && a.after == wm.data[..] && a.v == v && a.ok == ok
    ensures Tried(g, home[..], a, wm.t.n)
  {
    hide Decorated, Homes, Away, Passes, Tried, AllFail, SpacesAround;
    ghost var d, draws := wm.data[..], [];
    FitsMap(wm, g);
    NoDraws(g, d, home[..], v);
    ok, a := false, Attempt(d, d, v, [], false);
    var margin := 11;
    var tries := wm.t.n;
    while tries > 0 && !ok
      invariant 0 <= tries && Decorated(g, wm.data[..], bases)
      invariant !ok ==> wm.data[..] == d && AllFail(g, d, home[..], v, draws) && |draws| == wm.t.n - tries
      invariant ok ==> a.before == d && a.after == wm.data[..] && a.v == v && a.ok && Tried(g, home[..], a, wm.t.n)
      decreases tries, !ok
    {
      var rx := FuzzBound(g.width - 2 * margin - 1);
      var ry := FuzzBound(g.height - 2 * margin - 1);
      var x, y := margin + rx, margin + ry;
      var grav, lw := x + y * wm.t.lw, wm.t.lw;
      Around(g, wm.data[..], x, y);
      GravityCells(g, d, x, y);
      GravityPasses(g, d, home[..], v, x, y);
      tries := tries - 1;
      if !(wm.data[grav] != BLOCK_SPACE || wm.data[grav + 1] != BLOCK_SPACE || wm.data[grav - 1] != BLOCK_SPACE
           || wm.data[grav + lw] != BLOCK_SPACE || wm.data[grav - lw] != BLOCK_SPACE
           || wm.data[grav + lw + 1] != BLOCK_SPACE || wm.data[grav - lw + 1] != BLOCK_SPACE
           || wm.data[grav + lw - 1] != BLOCK_SPACE || wm.data[grav - lw - 1] != BLOCK_SPACE) {
        var far := AllFar(home, x, y, margin, false);
        if far {
          PutThing(wm, g, x, y, v, home, margin, false, bases);
          ok := true;
        }
      }
      if ok {
        Success(g, d, wm.data[..], home[..], v, draws, Home(x, y), wm.t.n);
        a := Attempt(d, wm.data[..], v, draws + [Home(x, y)], true);
      } else {
        OneMore(g, d, home[..], v, draws, Home(x, y));
        draws := draws + [Home(x, y)];
      }
    }
    if !ok {
      a := Attempt(d, d, v, draws, false);
      AllFailed(g, d, home[..], v, draws, wm.t.n);
    }
  }

  /** The fourth loop of Decorate_map: gravity blocks in open space, away from all bases. */
  method PlaceGravity(wm: WildMap, g: Size, num: int, home: array<Home>, ghost bases: seq<Base>)
    returns (ghost row: seq<Attempt>)
    requires Sized(wm, g) && Decorated(g, wm.data[..], bases) && Homes(home[..], bases)
    modifies wm.data
    ensures Decorated(g, wm.data[..], bases)
    ensures Placed(g, home[..], row, old(wm.data[..]), wm.data[..], num, wm.t.n)
    ensures forall i :: 0 <= i < |row| ==> Gravity(row[i].v)
  {
    hide Decorated, Homes, Row, Tried;
    row := [];
    ghost var d := wm.data[..];
    NoRow(g, home[..], d, wm.t.n);
    var i, ok := 0, true;
    while i < num && ok
      invariant Decorated(g, wm.data[..], bases) && Row(g, home[..], row, d, wm.data[..], wm.t.n)
      invariant 0 <= i == |row| && (i <= num || i == 0) && (Failed(row) <==> !ok)
      invariant forall k :: 0 <= k < |row| ==> Gravity(row[k].v)
      decreases num - i
    {
      ghost var a;
      var r := FuzzBound(3);
      var v := if r == 0 then BLOCK_GRAV_POS else if r == 1 then BLOCK_GRAV_NEG
               else if r == 2 then BLOCK_GRAV_CLOCK else BLOCK_GRAV_ANTI_CLOCK;
      ok, a := TryGravity(wm, g, v, home, bases);
      RowMore(g, home[..], row, d, a, wm.t.n);
      row := row + [a];
      i := i + 1;
    }
  }

  /** The test for a wormhole: only space, gravity blocks and wormholes around (x, y). */
  method OnlyOpenAround(wm: WildMap, g: Size, x: int, y: int, margin: int) returns (open: bool)
    requires Sized(wm, g) && 0 <= margin <= x < g.width - margin && margin <= y < g.height - margin
    ensures open <==> OpenAround(g, wm.data[..], x, y, margin)
  {
    hide At, Size.Cell;
    FitsMap(wm, g);
    var vert: int := -margin;
    open := true;
    while vert <= margin && open
      invariant -margin <= vert <= margin + 1
      invariant open ==> forall dx, dy :: -margin <= dx <= margin && -margin <= dy < vert ==>
                           OpenAt(g, wm.data[..], x, y, dx, dy)
      invariant !open ==> exists dx, dy :: -margin <= dx <= margin && -margin <= dy <= margin &&
                            !OpenAt(g, wm.data[..], x, y, dx, dy)
      decreases margin + 1 - vert, open
    {
      var hori: int := -margin;
      while hori <= margin && open
        invariant -margin <= hori <= margin + 1
        invariant open ==> forall dx :: -margin <= dx < hori ==> OpenAt(g, wm.data[..], x, y, dx, vert)
        invariant !open ==> exists dx, dy :: -margin <= dx <= margin && -margin <= dy <= margin &&
                              !OpenAt(g, wm.data[..], x, y, dx, dy)
        decreases margin + 1 - hori, open
      {
        CellInside(g, x + hori, y + vert);
        WormCell(g, x, y, margin, hori, vert);
        PlaceOf(g, wm.data[..], x + hori, y + vert);
        var off := x - margin + (y + vert) * wm.t.lw + (hori + margin);
        open := OpenBlock(wm.data[off]);
        assert open <==> OpenAt(g, wm.data[..], x, y, hori, vert);
        hori := hori + 1;
      }
      if open {
        vert := vert + 1;
      }
    }
  }

  lemma WormCell(g: Size, x: int, y: int, margin: int, dx: int, dy: int)
    requires 0 <= margin <= x < g.width - margin && margin <= y < g.height - margin
    requires -margin <= dx <= margin && -margin <= dy <= margin
    ensures g.Has(x + dx, y + dy) && g.Cell(x + dx, y + dy) == x - margin + (y + dy) * g.Line() + (dx + margin)
  {
  }

  lemma PlaceOf(g: Size, d: seq<byte>, x: int, y: int)
    requires g.Fits(d) && g.Has(x, y)
    ensures 0 <= g.Cell(x, y) < |d| && d[g.Cell(x, y)] == At(g, d, x, y)
  {
    CellInside(g, x, y);
  }

  lemma WormPasses(g: Size, d: seq<byte>, homes: seq<Home>, v: byte, x: int, y: int)
    requires g.Big() && g.Fits(d) && InMargin(g, x, y, 3) && Worm(v)
    ensures Passes(g, d, homes, v, x, y) <==>
            Space(At(g, d, x, y)) && OpenAround(g, d, x, y, 3) && Away(homes, x, y, 3, false)
  {
    hide Away, OpenAround, At;
  }

  /** Try random spots for a wormhole. */
  method TryWorm(wm: WildMap, g: Size, v: byte, home: array<Home>, ghost bases: seq<Base>)
    returns (ok: bool, ghost a: Attempt)
    requires Sized(wm, g) && Decorated(g, wm.data[..], bases) && Homes(home[..], bases)
    requires Worm(v)
    modifies wm.data
    ensures Decorated(g, wm.data[..], bases)
    ensures a.before == old(wm.data[..]) && a.after == wm.data[..] && a.v == v && a.ok == ok
    ensures Tried(g, home[..], a, wm.t.n)
  {
    hide Decorated, Homes, Away, Passes, Tried, AllFail, OpenAround;
    ghost var d, draws := wm.data[..], [];
    FitsMap(wm, g);
    NoDraws(g, d, home[..], v);
    ok, a := false, Attempt(d, d, v, [], false);
    var margin := 3;
    var tries := wm.t.n;
    while tries > 0 && !ok
      invariant 0 <= tries && Decorated(g, wm.data[..], bases)
      invariant !ok ==> wm.data[..] == d && AllFail(g, d, home[..], v, draws) && |draws| == wm.t.n - tries
      invariant ok ==> a.before == d && a.after == wm.data[..] && a.v == v && a.ok && Tried(g, home[..], a, wm.t.n)
      decreases tries, !ok
    {
      var rx := FuzzBound(g.width - 2 * margin - 1);
      var ry := FuzzBound(g.height - 2 * margin - 1);
      var x, y := margin + rx, margin + ry;
      Around(g, wm.data[..], x, y);
      WormPasses(g, d, home[..], v, x, y);
      tries := tries - 1;
      if wm.data[x + y * wm.t.lw] == BLOCK_SPACE {
        var open := OnlyOpenAround(wm, g, x, y, margin);
        if open {
          var far := AllFar(home, x, y, margin, false);
          if far {
            PutThing(wm, g, x, y, v, home, margin, false, bases);
            ok := true;
          }
        }
      }
      if ok {
        Success(g, d, wm.data[..], home[..], v, draws, Home(x, y), wm.t.n);
        a := Attempt(d, wm.data[..], v, draws + [Home(x, y)], true);
      } else {
        OneMore(g, d, home[..], v, draws, Home(x, y));
        draws := draws + [Home(x, y)];
      }
    }
    if !ok {
      a := Attempt(d, d, v, draws, false);
      AllFailed(g, d, home[..], v, draws, wm.t.n);
    }
  }

  /** The last loop of Decorate_map: wormholes. */
  method PlaceWorms(wm: WildMap, g: Size, num: int, home: array<Home>, ghost bases: seq<Base>)
    returns (ghost row: seq<Attempt>)
    requires Sized(wm, g) && Decorated(g, wm.data[..], bases) && Homes(home[..], bases)
    modifies wm.data
    ensures Decorated(g, wm.data[..], bases)
    ensures Placed(g, home[..], row, old(wm.data[..]), wm.data[..], num, wm.t.n)
    ensures forall i :: 0 <= i < |row| ==> Worm(row[i].v)
  {
    hide Decorated, Homes, Row, Tried;
    row := [];
    ghost var d := wm.data[..];
    NoRow(g, home[..], d, wm.t.n);
    var i, ok := 0, true;
    while i < num && ok
      invariant Decorated(g, wm.data[..], bases) && Row(g, home[..], row, d, wm.data[..], wm.t.n)
      invariant 0 <= i == |row| && (i <= num || i == 0) && (Failed(row) <==> !ok)
      invariant forall k :: 0 <= k < |row| ==> Worm(row[k].v)
      decreases num - i
    {
      ghost var a;
      var r := FuzzBound(3);
      var v := if r == 0 then BLOCK_WORM_IN else if r == 1 then BLOCK_WORM_OUT else BLOCK_WORM_BOTH;
      ok, a := TryWorm(wm, g, v, home, bases);
      RowMore(g, home[..], row, d, a, wm.t.n);
      row := row + [a];
      i := i + 1;
    }
  }

  /** Row k of the attempts is for things of its kind: bases, cannons, fuel, gravity blocks, wormholes. */
  predicate OfKind(k: int, v: byte) {
    if k == 0 then Digit(v) else if k == 1 then Cannon(v) else if k == 2 then v == BLOCK_FUEL
    else if k == 3 then Gravity(v) else Worm(v)
  }

  ghost predicate RowOk(g: Size, homes: seq<Home>, k: int, row: seq<Attempt>, d: seq<byte>, d': seq<byte>, num: int,
                        n: nat)
  {
    && Placed(g, if k == 0 then [] else homes, row, d, d', num, n)
    && forall i :: 0 <= i < |row| ==> OfKind(k, row[i].v)
  }

  /** Decorate_map: on every run, each base it places is safe at the end, bases are given to the teams in
      turn, and cannons, gravity blocks and wormholes keep their distance from all bases.  As many things of
      each kind are placed as are wanted, each on the first spot drawn that will do, fewer only if as many
      spots in a row will not do as the map has cells. */
  method DecorateMap(wm: WildMap, g: Size, numBases: nat, numTeams0: nat, numCannons: int, numFuels: int,
                     numGravs: int, numWorms: int)
    returns (ghost bases: seq<Base>, ghost homes: seq<Home>, ghost rows: seq<seq<Attempt>>,
             ghost maps: seq<seq<byte>>)
    requires Sized(wm, g) && Walls(wm.data[..]) && 1 <= numBases && 1 <= numTeams0 <= 10
    modifies wm.data
    ensures Decorated(g, wm.data[..], bases) && |bases| <= numBases
    ensures TeamsTakeTurns(bases, if numTeams0 > numBases then numBases else numTeams0)
    ensures |rows| == 5 && |maps| == 6 && maps[0] == old(wm.data[..]) && maps[5] == wm.data[..]
    ensures RowOk(g, homes, 0, rows[0], maps[0], maps[1], numBases, wm.t.n) && BasesOf(bases, rows[0])
    ensures RowOk(g, homes, 1, rows[1], maps[1], maps[2], numCannons, wm.t.n)
    ensures RowOk(g, homes, 2, rows[2], maps[2], maps[3], numFuels, wm.t.n)
    ensures RowOk(g, homes, 3, rows[3], maps[3], maps[4], numGravs, wm.t.n)
    ensures RowOk(g, homes, 4, rows[4], maps[4], maps[5], numWorms, wm.t.n)
    ensures |homes| == numBases && Homes(homes, bases)
  {
    hide Decorated, Walls, Row, BasesOf;
    var home := new Home[numBases];
    var numTeams := if numTeams0 > numBases then numBases else numTeams0;
    ghost var d0, row0 := wm.data[..], [];
    bases, row0 := PlaceBases(wm, g, home, numTeams);
    homes := home[..];
    ghost var d1 := wm.data[..];
    ghost var row1 := PlaceCannons(wm, g, numCannons, home, bases);
    ghost var d2 := wm.data[..];
    ghost var row2 := PlaceFuel(wm, g, numFuels, home, bases);
    ghost var d3 := wm.data[..];
    ghost var row3 := PlaceGravity(wm, g, numGravs, home, bases);
    ghost var d4 := wm.data[..];
    ghost var row4 := PlaceWorms(wm, g, numWorms, home, bases);
    rows, maps := [row0, row1, row2, row3, row4], [d0, d1, d2, d3, d4, wm.data[..]];
  }

  /** How the blocks on the left and right edge of a line must fit, since the map wraps around there: solid
      and diagonal blocks continue across the edge. */
  predicate EdgesFit(right: byte, left: byte) {
    && (Solid(right) ==> left != BLOCK_DOWN_LEFT && left != BLOCK_UP_LEFT)
    && (Space(right) || right == BLOCK_DOWN_RIGHT || right == BLOCK_UP_RIGHT ==>
       left != BLOCK_DOWN_RIGHT && left != BLOCK_UP_RIGHT)
    && (Solid(left) ==> right != BLOCK_DOWN_RIGHT && right != BLOCK_UP_RIGHT)
    && (Space(left) || left == BLOCK_UP_LEFT || left == BLOCK_DOWN_LEFT ==>
       right != BLOCK_DOWN_LEFT && right != BLOCK_UP_LEFT)
  }

  /** Where a diagonal block is on one of the edges, the wall is solid on both sides of the common side or on
      neither. */
  lemma EdgesFitMeans(right: byte, left: byte)
    requires (Plain(right) || Diagonal(right)) && (Plain(left) || Diagonal(left))
    ensures EdgesFit(right, left) <==>
            (Diagonal(right) || Diagonal(left) ==>
               (WallParts.SolidSide(right as char, 4) <==> WallParts.SolidSide(left as char, 0)))
  {
    hide WallParts.SolidSide;
    WallParts.WaysSolid(right as char, 4);
    WallParts.WaysSolid(left as char, 0);
  }

  /** What becomes of the blocks on both edges of a line. */
  function FixLeft(right: byte, left: byte): byte {
    if Solid(right) && (left == BLOCK_DOWN_LEFT || left == BLOCK_UP_LEFT) then BLOCK_SOLID
    else if (Space(right) || right == BLOCK_DOWN_RIGHT || right == BLOCK_UP_RIGHT)
            && (left == BLOCK_DOWN_RIGHT || left == BLOCK_UP_RIGHT) then BLOCK_SPACE
    else left
  }

  function FixRight(right: byte, left: byte): byte {
    if Solid(left) && (right == BLOCK_DOWN_RIGHT || right == BLOCK_UP_RIGHT) then BLOCK_SOLID
    else if (Space(left) || left == BLOCK_UP_LEFT || left == BLOCK_DOWN_LEFT)
            && (right == BLOCK_DOWN_LEFT || right == BLOCK_UP_LEFT) then BLOCK_SPACE
    else right
  }

  lemma FixedFit(right: byte, left: byte)
    ensures EdgesFit(FixRight(right, FixLeft(right, left)), FixLeft(right, left))
    ensures var l := FixLeft(right, left); l == left || (Diagonal(left) && Plain(l))
    ensures var r := FixRight(right, FixLeft(right, left)); r == right || (Diagonal(right) && Plain(r))
  {
  }

  /** The body of the loop of Border_map. */
  method FixEdges(data: array<byte>, left: int, right: int)
    requires 0 <= left < data.Length && 0 <= right < data.Length && left != right
    modifies data
    ensures data[left] == FixLeft(old(data[right]), old(data[left]))
    ensures data[right] == FixRight(old(data[right]), data[left])
    ensures forall c :: 0 <= c < data.Length && c != left && c != right ==> data[c] == old(data[c])
  {
    if data[right] == BLOCK_SOLID {
      if data[left] == BLOCK_DOWN_LEFT || data[left] == BLOCK_UP_LEFT {
        data[left] := BLOCK_SOLID;
      }
    }
    if data[right] == BLOCK_SPACE || data[right] == BLOCK_DOWN_RIGHT || data[right] == BLOCK_UP_RIGHT {
      if data[left] == BLOCK_DOWN_RIGHT || data[left] == BLOCK_UP_RIGHT {
        data[left] := BLOCK_SPACE;
      }
    }
    if data[left] == BLOCK_SOLID {
      if data[right] == BLOCK_DOWN_RIGHT || data[right] == BLOCK_UP_RIGHT {
        data[right] := BLOCK_SOLID;
      }
    }
    if data[left] == BLOCK_SPACE || data[left] == BLOCK_UP_LEFT || data[left] == BLOCK_DOWN_LEFT {
      if data[right] == BLOCK_DOWN_LEFT || data[right] == BLOCK_UP_LEFT {
        data[right] := BLOCK_SPACE;
      }
    }
  }

  /** What becomes of the block at (x, y). */
  function Fixed(g: Size, d: seq<byte>, x: int, y: int): byte
    requires g.Big() && g.Fits(d) && 0 <= x <= g.width && 0 <= y < g.height
  {
    var right, left := At(g, d, 0, y), At(g, d, g.width - 1, y);
    if x == g.width then NEWLINE
    else if x == g.width - 1 then FixLeft(right, left)
    else if x == 0 then FixRight(right, FixLeft(right, left))
    else At(g, d, x, y)
  }

  /** Lines before `line` have been dealt with; later ones are as they were. */
  ghost predicate BorderedUpTo(g: Size, d: seq<byte>, d': seq<byte>, line: int)
    requires g.Big() && g.Fits(d) && g.Fits(d')
  {
    forall x, y :: 0 <= x <= g.width && 0 <= y < g.height ==>
      At(g, d', x, y) == if y < line then Fixed(g, d, x, y) else At(g, d, x, y)
  }

  predicate BorderLine(g: Size, d: seq<byte>, y: int)
    requires g.Big() && g.Fits(d) && 0 <= y < g.height
  {
    EdgesFit(At(g, d, 0, y), At(g, d, g.width - 1, y)) && At(g, d, g.width, y) == NEWLINE
  }

  /** The cannon at (x, y) is fixed to a diagonal block on an edge that becomes a space. */
  predicate LosesWall(g: Size, d: seq<byte>, x: int, y: int)
    requires g.Big() && g.Fits(d) && g.Has(x, y)
  {
    var v := At(g, d, x, y);
    && Cannon(v)
    && var wx, wy := WallX(v, x), WallY(v, y);
       g.Has(wx, wy) && (wx == 0 || wx == g.width - 1) && Diagonal(At(g, d, wx, wy)) && Space(Fixed(g, d, wx, wy))
  }

  /** Border_map: the edges fit together, every line ends with a line end, nothing else changes, and so all
      bases stay safe; and of all cannons just those lose their wall that were fixed to an edge block which
      has become a space. */
  method BorderMap(wm: WildMap, g: Size, ghost bases: seq<Base>)
    requires Sized(wm, g) && AllSafe(g, wm.data[..], bases) && KeepsDistance(g, wm.data[..], bases)
    modifies wm.data
    ensures forall y :: 0 <= y < g.height ==> BorderLine(g, wm.data[..], y)
    ensures OnlyEdges(g, old(wm.data[..]), wm.data[..])
    ensures AllSafe(g, wm.data[..], bases) && KeepsDistance(g, wm.data[..], bases)
    ensures AllAttached(g, old(wm.data[..])) ==>
              forall x, y :: g.Has(x, y) ==> (Attached(g, wm.data[..], x, y) <==> !LosesWall(g, old(wm.data[..]), x, y))
  {
    hide AllSafe, KeepsDistance, AllAttached, At, BorderedUpTo, OnlyEdges, BorderLine, Attached, LosesWall;
    ghost var d := wm.data[..];
    var left := g.width - 1;
    var middle := left + 1;
    var right := 0;
    var i := 0;
    StartBorder(g, d);
    while i < g.height
      invariant 0 <= i <= g.height
      invariant right == g.Cell(0, i) && left == g.Cell(g.width - 1, i) && middle == g.Cell(g.width, i)
      invariant BorderedUpTo(g, d, wm.data[..], i)
    {
      LineCells(g, i);
      ghost var d1 := wm.data[..];
      wm.data[middle] := NEWLINE;
      FixEdges(wm.data, left, right);
      BorderNext(g, d, d1, wm.data[..], i);
      left := left + wm.t.lw;
      middle := middle + wm.t.lw;
      right := right + wm.t.lw;
      i := i + 1;
    }
    EndBorder(g, d, wm.data[..]);
    EdgesKeep(g, d, bases, wm.data[..]);
    if AllAttached(g, d) {
      forall x, y | g.Has(x, y)
        ensures Attached(g, wm.data[..], x, y) <==> !LosesWall(g, d, x, y)
      {
        CannonAtBorder(g, d, wm.data[..], x, y);
      }
    }
  }

  lemma StartBorder(g: Size, d: seq<byte>)
    requires g.Big() && g.Fits(d)
    ensures BorderedUpTo(g, d, d, 0)
    ensures 0 == g.Cell(0, 0) && g.width - 1 == g.Cell(g.width - 1, 0) && g.width == g.Cell(g.width, 0)
  {
  }

  lemma LineCells(g: Size, y: int)
    requires g.Big() && 0 <= y < g.height
    ensures 0 <= g.Cell(0, y) < g.Cell(g.width - 1, y) < g.Cell(g.width, y) < g.Line() * g.height
    ensures g.Cell(0, y + 1) == g.Cell(0, y) + g.Line()
            && g.Cell(g.width - 1, y + 1) == g.Cell(g.width - 1, y) + g.Line()
    ensures g.Cell(g.width, y + 1) == g.Cell(g.width, y) + g.Line()
  {
    CellInside(g, 0, y);
    CellInside(g, g.width, y);
    CellNeighbours(g, 0, y);
    CellNeighbours(g, g.width - 1, y);
    CellNeighbours(g, g.width, y);
  }

  lemma BorderNext(g: Size, d: seq<byte>, d1: seq<byte>, d2: seq<byte>, line: int)
    requires g.Big() && g.Fits(d) && g.Fits(d1) && g.Fits(d2) && 0 <= line < g.height && BorderedUpTo(g, d, d1, line)
    requires var r, l, m := g.Cell(0, line), g.Cell(g.width - 1, line), g.Cell(g.width, line);
             && 0 <= r < l < m < |d1| && d2[m] == NEWLINE
             && d2[l] == FixLeft(d1[r], d1[l]) && d2[r] == FixRight(d1[r], d2[l])
             && (forall c :: 0 <= c < |d1| && c != l && c != r && c != m ==> d2[c] == d1[c])
    ensures BorderedUpTo(g, d, d2, line + 1)
  {
    hide FixLeft, FixRight, Size.Cell;
    forall x, y | 0 <= x <= g.width && 0 <= y < g.height
      ensures At(g, d2, x, y) == if y < line + 1 then Fixed(g, d, x, y) else At(g, d, x, y)
    {
      CellInside(g, x, y);
      NotThere(g, x, y, 0, line);
      NotThere(g, x, y, g.width - 1, line);
      NotThere(g, x, y, g.width, line);
      assert At(g, d1, x, y) == if y < line then Fixed(g, d, x, y) else At(g, d, x, y);
      assert At(g, d1, 0, line) == At(g, d, 0, line) && At(g, d1, g.width - 1, line) == At(g, d, g.width - 1, line);
    }
  }

  lemma NotThere(g: Size, x: int, y: int, x': int, y': int)
    requires 0 <= x <= g.width && 0 <= x' <= g.width
    ensures g.Cell(x, y) == g.Cell(x', y') ==> x == x' && y == y'
  {
    if g.Cell(x, y) == g.Cell(x', y') {
      CellApart(g, x, y, x', y');
    }
  }

  lemma EndBorder(g: Size, d: seq<byte>, d': seq<byte>)
    requires g.Big() && g.Fits(d) && g.Fits(d') && BorderedUpTo(g, d, d', g.height)
    ensures OnlyEdges(g, d, d') && forall y :: 0 <= y < g.height ==> BorderLine(g, d', y)
    ensures forall x, y :: 0 <= x <= g.width && 0 <= y < g.height ==> At(g, d', x, y) == Fixed(g, d, x, y)
  {
    hide At, FixLeft, FixRight, EdgesFit;
    forall x, y | 0 <= x <= g.width && 0 <= y < g.height
      ensures At(g, d', x, y) == At(g, d, x, y) || EdgeChange(g, At(g, d, x, y), x, At(g, d', x, y))
    {
      FixedFit(At(g, d, 0, y), At(g, d, g.width - 1, y));
    }
    forall y | 0 <= y < g.height
      ensures BorderLine(g, d', y)
    {
      FixedFit(At(g, d, 0, y), At(g, d, g.width - 1, y));
    }
  }

  lemma FixedBlock(g: Size, d: seq<byte>, x: int, y: int)
    requires g.Big() && g.Fits(d) && g.Has(x, y)
    ensures var b, b' := At(g, d, x, y), Fixed(g, d, x, y);
            b' == b || ((x == 0 || x == g.width - 1) && Diagonal(b) && Plain(b'))
  {
    hide At, FixLeft, FixRight, EdgesFit;
    FixedFit(At(g, d, 0, y), At(g, d, g.width - 1, y));
  }

  lemma CannonAtBorder(g: Size, d: seq<byte>, d': seq<byte>, x: int, y: int)
    requires g.Big() && g.Fits(d) && g.Fits(d') && g.Has(x, y) && AllAttached(g, d)
    requires forall i, j :: 0 <= i <= g.width && 0 <= j < g.height ==> At(g, d', i, j) == Fixed(g, d, i, j)
    ensures Attached(g, d', x, y) <==> !LosesWall(g, d, x, y)
  {
    hide At, Fixed;
    assert Attached(g, d, x, y);
    FixedBlock(g, d, x, y);
    var v := At(g, d, x, y);
    if Cannon(v) {
      FixedBlock(g, d, WallX(v, x), WallY(v, y));
    }
  }
}
