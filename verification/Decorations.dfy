/** What Decorate_map and Border_map of wildmap.c keep true about the things they place. */
module Decorations {
  import opened HelixMap
  import opened SmoothRules

  const BLOCK_CANNON_RIGHT: byte := 100
  const BLOCK_CANNON_DOWN: byte := 114
  const BLOCK_CANNON_LEFT: byte := 102
  const BLOCK_CANNON_UP: byte := 99
  const BLOCK_FUEL: byte := 35
  const BLOCK_GRAV_POS: byte := 43
  const BLOCK_GRAV_NEG: byte := 45
  const BLOCK_GRAV_CLOCK: byte := 62
  const BLOCK_GRAV_ANTI_CLOCK: byte := 60
  const BLOCK_WORM_BOTH: byte := 64
  const BLOCK_WORM_IN: byte := 40
  const BLOCK_WORM_OUT: byte := 41
  const NEWLINE: byte := 10

  predicate Digit(b: byte) { 48 <= b <= 57 }

  predicate Cannon(b: byte) {
    b == BLOCK_CANNON_RIGHT || b == BLOCK_CANNON_DOWN || b == BLOCK_CANNON_LEFT || b == BLOCK_CANNON_UP
  }

  predicate Gravity(b: byte) {
    b == BLOCK_GRAV_POS || b == BLOCK_GRAV_NEG || b == BLOCK_GRAV_CLOCK || b == BLOCK_GRAV_ANTI_CLOCK
  }

  predicate Worm(b: byte) {
    b == BLOCK_WORM_BOTH || b == BLOCK_WORM_IN || b == BLOCK_WORM_OUT
  }

  /** The size of the visible map; a line has one cell more, for the line end. */
  datatype Size = Size(width: nat, height: nat) {
    predicate Big() { 23 <= width && 23 <= height }

    function Line(): nat { width + 1 }

    function Cell(x: int, y: int): int { x + y * Line() }

    predicate Has(x: int, y: int) { 0 <= x < width && 0 <= y < height }

    predicate Fits(d: seq<byte>) { |d| == Line() * height }
  }

  lemma CellInside(g: Size, x: int, y: int)
    requires 0 <= x <= g.width && 0 <= y < g.height
    ensures 0 <= g.Cell(x, y) < g.Line() * g.height
  {
    assert (y + 1) * g.Line() <= g.height * g.Line();
    assert 0 <= y * g.Line();
  }

  /** Different cells have different places in the array. */
  lemma CellApart(g: Size, x: int, y: int, x': int, y': int)
    requires 0 <= x <= g.width && 0 <= x' <= g.width && g.Cell(x, y) == g.Cell(x', y')
    ensures x == x' && y == y'
  {
    LinesApart(y, y', g.Line());
    LinesApart(y', y, g.Line());
  }

  lemma LinesApart(y: int, y': int, n: nat)
    ensures y < y' ==> (y + 1) * n <= y' * n
  {
  }

  lemma CellNeighbours(g: Size, x: int, y: int)
    ensures g.Cell(x, y) + g.Line() == g.Cell(x, y + 1) && g.Cell(x, y) - g.Line() == g.Cell(x, y - 1)
    ensures g.Cell(x, y) - 2 * g.Line() == g.Cell(x, y - 2)
    ensures g.Cell(x, y) + 1 == g.Cell(x + 1, y) && g.Cell(x, y) - 1 == g.Cell(x - 1, y)
  {
  }

  function At(g: Size, d: seq<byte>, x: int, y: int): byte
    requires g.Fits(d) && 0 <= x <= g.width && 0 <= y < g.height
  {
    CellInside(g, x, y);
    d[g.Cell(x, y)]
  }

  lemma AtAfter(g: Size, d: seq<byte>, x: int, y: int, b: byte, x': int, y': int)
    requires g.Fits(d) && 0 <= x <= g.width && 0 <= y < g.height && 0 <= x' <= g.width && 0 <= y' < g.height
    ensures 0 <= g.Cell(x, y) < |d| && g.Fits(d[g.Cell(x, y) := b])
    ensures At(g, d[g.Cell(x, y) := b], x', y') == if x == x' && y == y' then b else At(g, d, x', y')
  {
    CellInside(g, x, y);
    CellInside(g, x', y');
    if g.Cell(x, y) == g.Cell(x', y') {
      CellApart(g, x, y, x', y');
    }
  }

  /** A base, and the digit of its team. */
  datatype Base = Base(x: int, y: int, digit: byte)

  predicate BaseInside(g: Size, b: Base) {
    2 <= b.x <= g.width - 3 && 2 <= b.y <= g.height - 3
  }

  /** A ship can start here: the base has its digit, is free to the left and right and for two cells above,
      and stands on solid ground or fuel. */
  predicate BaseSafe(g: Size, d: seq<byte>, b: Base)
    requires g.Fits(d)
  {
    && BaseInside(g, b) && Digit(b.digit)
    && At(g, d, b.x, b.y) == b.digit
    && Space(At(g, d, b.x - 1, b.y)) && Space(At(g, d, b.x + 1, b.y))
    && Space(At(g, d, b.x, b.y - 1)) && Space(At(g, d, b.x, b.y - 2))
    && (Solid(At(g, d, b.x, b.y + 1)) || At(g, d, b.x, b.y + 1) == BLOCK_FUEL)
  }

  ghost predicate AllSafe(g: Size, d: seq<byte>, bases: seq<Base>)
    requires g.Fits(d)
  {
    forall i :: 0 <= i < |bases| ==> BaseSafe(g, d, bases[i])
  }

  function Gap(a: int, b: int): nat { if a < b then b - a else a - b }

  /** Cannons are more than 1 away from a base in both directions, gravity blocks more than 11 and wormholes
      more than 3 in one. */
  predicate DistanceOk(v: byte, x: int, y: int, b: Base) {
    && (Cannon(v) ==> Gap(x, b.x) > 1 && Gap(y, b.y) > 1)
    && (Gravity(v) ==> Gap(x, b.x) > 11 || Gap(y, b.y) > 11)
    && (Worm(v) ==> Gap(x, b.x) > 3 || Gap(y, b.y) > 3)
  }

  ghost predicate AllDistant(v: byte, x: int, y: int, bases: seq<Base>) {
    forall i :: 0 <= i < |bases| ==> DistanceOk(v, x, y, bases[i])
  }

  ghost predicate KeepsDistance(g: Size, d: seq<byte>, bases: seq<Base>)
    requires g.Fits(d)
  {
    forall x, y :: g.Has(x, y) ==> AllDistant(At(g, d, x, y), x, y, bases)
  }

  /** A block that a cannon of this type can be fixed to. */
  predicate Holder(v: byte, w: byte) {
    || Solid(w) || w == BLOCK_FUEL
    || (v == BLOCK_CANNON_RIGHT && (w == BLOCK_UP_LEFT || w == BLOCK_DOWN_LEFT))
    || (v == BLOCK_CANNON_DOWN && (w == BLOCK_UP_LEFT || w == BLOCK_UP_RIGHT))
    || (v == BLOCK_CANNON_LEFT && (w == BLOCK_UP_RIGHT || w == BLOCK_DOWN_RIGHT))
    || (v == BLOCK_CANNON_UP && w == BLOCK_DOWN_LEFT)
  }

  /** Where the wall of a cannon is: wall_offset. */
  function WallX(v: byte, x: int): int {
    if v == BLOCK_CANNON_RIGHT then x + 1 else if v == BLOCK_CANNON_LEFT then x - 1 else x
  }

  function WallY(v: byte, y: int): int {
    if v == BLOCK_CANNON_DOWN then y + 1 else if v == BLOCK_CANNON_UP then y - 1 else y
  }

  predicate Attached(g: Size, d: seq<byte>, x: int, y: int)
    requires g.Fits(d) && g.Has(x, y)
  {
    var v := At(g, d, x, y);
    Cannon(v) ==> g.Has(WallX(v, x), WallY(v, y)) && Holder(v, At(g, d, WallX(v, x), WallY(v, y)))
  }

  ghost predicate AllAttached(g: Size, d: seq<byte>)
    requires g.Fits(d)
  {
    forall x, y :: g.Has(x, y) ==> Attached(g, d, x, y)
  }

  /** All that decorating keeps true. */
  ghost predicate Decorated(g: Size, d: seq<byte>, bases: seq<Base>) {
    && g.Big() && g.Fits(d) && AllSafe(g, d, bases) && KeepsDistance(g, d, bases) && AllAttached(g, d)
  }

  lemma StartDecorated(g: Size, d: seq<byte>)
    requires g.Big() && g.Fits(d) && Walls(d)
    ensures Decorated(g, d, [])
  {
    forall x, y | g.Has(x, y)
      ensures Attached(g, d, x, y)
    {
      CellInside(g, x, y);
    }
  }

  /** The cells that a base needs free. */
  predicate Needs(b: Base, x: int, y: int) {
    (y == b.y && (x == b.x - 1 || x == b.x + 1)) || (x == b.x && (y == b.y - 1 || y == b.y - 2))
  }

  lemma BaseStays(g: Size, d: seq<byte>, x: int, y: int, v: byte, b: Base)
    requires g.Fits(d) && g.Has(x, y) && BaseSafe(g, d, b)
    requires (Space(At(g, d, x, y)) && !Needs(b, x, y)) || (Solid(At(g, d, x, y)) && v == BLOCK_FUEL)
    ensures 0 <= g.Cell(x, y) < |d| && g.Fits(d[g.Cell(x, y) := v]) && BaseSafe(g, d[g.Cell(x, y) := v], b)
  {
    hide At, Size.Cell;
    AtAfter(g, d, x, y, v, b.x, b.y);
    AtAfter(g, d, x, y, v, b.x - 1, b.y);
    AtAfter(g, d, x, y, v, b.x + 1, b.y);
    AtAfter(g, d, x, y, v, b.x, b.y - 1);
    AtAfter(g, d, x, y, v, b.x, b.y - 2);
    AtAfter(g, d, x, y, v, b.x, b.y + 1);
  }

  lemma CannonStays(g: Size, d: seq<byte>, x: int, y: int, v: byte, x': int, y': int)
    requires g.Fits(d) && g.Has(x, y) && g.Has(x', y') && !(x == x' && y == y') && Attached(g, d, x', y')
    requires Space(At(g, d, x, y)) || (Solid(At(g, d, x, y)) && v == BLOCK_FUEL)
    ensures 0 <= g.Cell(x, y) < |d| && g.Fits(d[g.Cell(x, y) := v]) && Attached(g, d[g.Cell(x, y) := v], x', y')
  {
    hide At, Size.Cell;
    AtAfter(g, d, x, y, v, x', y');
    var w := At(g, d, x', y');
    if Cannon(w) {
      AtAfter(g, d, x, y, v, WallX(w, x'), WallY(w, y'));
    }
  }

  /** Putting v on cell (x, y) keeps all that is true, if no base needs the cell, v keeps its distance and a
      cannon has its wall. */
  lemma PutKeeps(g: Size, d: seq<byte>, bases: seq<Base>, x: int, y: int, v: byte)
    requires Decorated(g, d, bases) && g.Has(x, y) && AllDistant(v, x, y, bases)
    requires (Space(At(g, d, x, y)) && forall i :: 0 <= i < |bases| ==> !Needs(bases[i], x, y))
          || (Solid(At(g, d, x, y)) && v == BLOCK_FUEL)
    requires Cannon(v) ==> g.Has(WallX(v, x), WallY(v, y)) && Holder(v, At(g, d, WallX(v, x), WallY(v, y)))
    ensures 0 <= g.Cell(x, y) < |d| && Decorated(g, d[g.Cell(x, y) := v], bases)
  {
    hide At, Size.Cell, BaseSafe, Attached, AllDistant, Holder, Needs;
    CellInside(g, x, y);
    var d' := d[g.Cell(x, y) := v];
    forall i | 0 <= i < |bases|
      ensures BaseSafe(g, d', bases[i])
    {
      BaseStays(g, d, x, y, v, bases[i]);
    }
    forall x', y' | g.Has(x', y')
      ensures AllDistant(At(g, d', x', y'), x', y', bases)
    {
      AtAfter(g, d, x, y, v, x', y');
    }
    forall x', y' | g.Has(x', y')
      ensures Attached(g, d', x', y')
    {
      if x == x' && y == y' {
        NewAttached(g, d, x, y, v);
      } else {
        CannonStays(g, d, x, y, v, x', y');
      }
    }
  }

  lemma NewAttached(g: Size, d: seq<byte>, x: int, y: int, v: byte)
    requires g.Fits(d) && g.Has(x, y)
    requires Cannon(v) ==> g.Has(WallX(v, x), WallY(v, y)) && Holder(v, At(g, d, WallX(v, x), WallY(v, y)))
    ensures 0 <= g.Cell(x, y) < |d| && g.Fits(d[g.Cell(x, y) := v]) && Attached(g, d[g.Cell(x, y) := v], x, y)
  {
    hide At, Size.Cell;
    AtAfter(g, d, x, y, v, x, y);
    if Cannon(v) {
      AtAfter(g, d, x, y, v, WallX(v, x), WallY(v, y));
    }
  }

  /** A cannon, gravity block or wormhole that keeps its distance is on no cell that a base needs. */
  lemma DistantNotNeeded(v: byte, x: int, y: int, bases: seq<Base>)
    requires AllDistant(v, x, y, bases) && (Cannon(v) || Gravity(v) || Worm(v))
    ensures forall i :: 0 <= i < |bases| ==> !Needs(bases[i], x, y)
  {
  }

  // Placing a base.

  /** The conditions that Decorate_map checks for a new base. */
  predicate FreeSpot(g: Size, d: seq<byte>, x: int, y: int)
    requires g.Fits(d)
  {
    && 2 <= x <= g.width - 3 && 2 <= y <= g.height - 3
    && Space(At(g, d, x, y)) && Solid(At(g, d, x, y + 1)) && Space(At(g, d, x, y - 1)) && Space(At(g, d, x, y - 2))
    && Space(At(g, d, x - 1, y)) && Space(At(g, d, x + 1, y))
  }

  /** A spot that passes is needed by no other base. */
  lemma FreeNotNeeded(g: Size, d: seq<byte>, b: Base, x: int, y: int)
    requires g.Fits(d) && BaseSafe(g, d, b) && FreeSpot(g, d, x, y)
    ensures !Needs(b, x, y)
  {
    hide At, Size.Cell;
  }

  /** No cannons, gravity blocks and wormholes yet. */
  ghost predicate Bare(g: Size, d: seq<byte>)
    requires g.Fits(d)
  {
    forall x, y :: g.Has(x, y) ==> Unarmed(At(g, d, x, y))
  }

  predicate Unarmed(b: byte) { !Cannon(b) && !Gravity(b) && !Worm(b) }

  lemma PutBase(g: Size, d: seq<byte>, bases: seq<Base>, x: int, y: int, v: byte)
    requires Decorated(g, d, bases) && FreeSpot(g, d, x, y) && Digit(v) && Bare(g, d)
    ensures 0 <= g.Cell(x, y) < |d| && Decorated(g, d[g.Cell(x, y) := v], bases + [Base(x, y, v)])
    ensures Bare(g, d[g.Cell(x, y) := v])
  {
    hide At, Size.Cell, BaseSafe, Attached, FreeSpot, Needs, Unarmed;
    SpotInside(g, d, x, y);
    CellInside(g, x, y);
    var d', b := d[g.Cell(x, y) := v], Base(x, y, v);
    DigitUnarmed(v);
    forall i | 0 <= i < |bases|
      ensures !Needs(bases[i], x, y)
    {
      FreeNotNeeded(g, d, bases[i], x, y);
    }
    DigitDistant(v, x, y, bases);
    PutKeeps(g, d, bases, x, y, v);
    NewBaseSafe(g, d, x, y, v);
    forall x', y' | g.Has(x', y')
      ensures Unarmed(At(g, d', x', y')) && AllDistant(At(g, d', x', y'), x', y', bases + [b])
    {
      AtAfter(g, d, x, y, v, x', y');
      UnarmedDistant(At(g, d', x', y'), x', y', bases + [b]);
    }
  }

  lemma SpotInside(g: Size, d: seq<byte>, x: int, y: int)
    requires g.Fits(d) && FreeSpot(g, d, x, y)
    ensures g.Has(x, y) && Space(At(g, d, x, y))
  {
  }

  lemma DigitUnarmed(v: byte)
    requires Digit(v)
    ensures Unarmed(v) && !Space(v) && !Cannon(v)
  {
  }

  lemma DigitDistant(v: byte, x: int, y: int, bases: seq<Base>)
    requires Digit(v)
    ensures AllDistant(v, x, y, bases)
  {
  }

  lemma UnarmedDistant(v: byte, x: int, y: int, bases: seq<Base>)
    requires Unarmed(v)
    ensures AllDistant(v, x, y, bases)
  {
  }

  lemma NewBaseSafe(g: Size, d: seq<byte>, x: int, y: int, v: byte)
    requires g.Fits(d) && FreeSpot(g, d, x, y) && Digit(v)
    ensures 0 <= g.Cell(x, y) < |d| && g.Fits(d[g.Cell(x, y) := v]) && BaseSafe(g, d[g.Cell(x, y) := v], Base(x, y, v))
  {
    hide At, Size.Cell;
    AtAfter(g, d, x, y, v, x, y);
    AtAfter(g, d, x, y, v, x - 1, y);
    AtAfter(g, d, x, y, v, x + 1, y);
    AtAfter(g, d, x, y, v, x, y - 1);
    AtAfter(g, d, x, y, v, x, y - 2);
    AtAfter(g, d, x, y, v, x, y + 1);
  }

  // The border.

  /** A change that Border_map may make: a line end, or a diagonal block on the left or right edge. */
  predicate EdgeChange(g: Size, b: byte, x: int, v: byte) {
    x == g.width || ((x == 0 || x == g.width - 1) && (v == b || (Diagonal(b) && Plain(v))))
  }

  /** Only the edges and the line ends changed. */
  ghost predicate OnlyEdges(g: Size, d: seq<byte>, d': seq<byte>)
    requires g.Fits(d)
  {
    && g.Fits(d')
    && forall x, y :: 0 <= x <= g.width && 0 <= y < g.height ==>
         At(g, d', x, y) == At(g, d, x, y) || EdgeChange(g, At(g, d, x, y), x, At(g, d', x, y))
  }

  lemma EdgesKeep(g: Size, d: seq<byte>, bases: seq<Base>, d': seq<byte>)
    requires g.Big() && g.Fits(d) && AllSafe(g, d, bases) && KeepsDistance(g, d, bases) && OnlyEdges(g, d, d')
    ensures AllSafe(g, d', bases) && KeepsDistance(g, d', bases)
  {
    hide At, Size.Cell;
    forall i | 0 <= i < |bases|
      ensures BaseSafe(g, d', bases[i])
    {
      var b := bases[i];
      assert BaseSafe(g, d, b);
      Inner(g, d, d', b.x, b.y);
      Inner(g, d, d', b.x - 1, b.y);
      Inner(g, d, d', b.x + 1, b.y);
      Inner(g, d, d', b.x, b.y - 1);
      Inner(g, d, d', b.x, b.y - 2);
      Inner(g, d, d', b.x, b.y + 1);
    }
    forall x, y | g.Has(x, y)
      ensures AllDistant(At(g, d', x, y), x, y, bases)
    {
      assert AllDistant(At(g, d, x, y), x, y, bases);
      if At(g, d', x, y) != At(g, d, x, y) {
        assert Plain(At(g, d', x, y));
      }
    }
  }

  /** Inner cells are not touched. */
  lemma Inner(g: Size, d: seq<byte>, d': seq<byte>, x: int, y: int)
    requires g.Fits(d) && OnlyEdges(g, d, d') && 1 <= x <= g.width - 2 && 0 <= y < g.height
    ensures At(g, d', x, y) == At(g, d, x, y)
  {
    hide At, Size.Cell;
  }
}
