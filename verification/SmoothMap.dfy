/** Smooth_map of wildmap.c: turn walls into solid and diagonal blocks, until no corner is sharp. */
module SmoothRules {
  import opened HelixMap
  import WallParts

  const BLOCK_SPACE: byte := 32
  const BLOCK_SOLID: byte := 120
  const BLOCK_UP_RIGHT: byte := 97
  const BLOCK_UP_LEFT: byte := 115
  const BLOCK_DOWN_LEFT: byte := 119
  const BLOCK_DOWN_RIGHT: byte := 113

  predicate Diagonal(b: byte) {
    b == BLOCK_UP_RIGHT || b == BLOCK_UP_LEFT || b == BLOCK_DOWN_LEFT || b == BLOCK_DOWN_RIGHT
  }

  predicate Plain(b: byte) { b == BLOCK_SPACE || b == BLOCK_SOLID }

  /** The nine cells around p4, in the order p0 ... p8: from right to left, lowest line first. */
  datatype Square = Square(p0: int, p1: int, p2: int, p3: int, p4: int, p5: int, p6: int, p7: int, p8: int)

  function SquareAt(t: Torus, i: int): (s: Square)
    requires t.Valid() && t.Has(i)
  {
    var up := t.Up(i);
    var up2 := t.Up(up);
    Square(i, t.Left(i), t.Left(t.Left(i)), up, t.Left(up), t.Left(t.Left(up)), up2, t.Left(up2), t.Left(t.Left(up2)))
  }

  /** The square that a pass starts with: p5 and p8 are one cell too far to the left. */
  function FirstSquare(t: Torus): Square {
    var p3 := t.n - t.lw;
    var p6 := p3 - t.lw;
    Square(0, t.n - 1, t.n - 2, p3, p3 - 1, p3 - 3, p6, p6 - 1, p6 - 3)
  }

  predicate Inside(s: Square, n: int) {
    && 0 <= s.p0 < n && 0 <= s.p1 < n && 0 <= s.p2 < n && 0 <= s.p3 < n && 0 <= s.p4 < n && 0 <= s.p5 < n
    && 0 <= s.p6 < n && 0 <= s.p7 < n && 0 <= s.p8 < n
  }

  /** The blocks of a square. */
  datatype Blocks = Blocks(b0: byte, b1: byte, b2: byte, b3: byte, b4: byte, b5: byte, b6: byte, b7: byte, b8: byte)

  function BlocksOf(d: seq<byte>, s: Square): Blocks
    requires Inside(s, |d|)
  {
    Blocks(d[s.p0], d[s.p1], d[s.p2], d[s.p3], d[s.p4], d[s.p5], d[s.p6], d[s.p7], d[s.p8])
  }

  predicate Solid(b: byte) { b == BLOCK_SOLID }
  predicate Space(b: byte) { b == BLOCK_SPACE }

  /** p4 is a corner that a diagonal block rounds. */
  predicate Corner(b: Blocks) {
    || (Solid(b.b0) && Solid(b.b1) && Solid(b.b3) && Space(b.b5) && Space(b.b7) && Space(b.b8))
    || (Solid(b.b1) && Solid(b.b2) && Space(b.b3) && Solid(b.b5) && Space(b.b6) && Space(b.b7))
    || (Space(b.b0) && Space(b.b1) && Space(b.b3) && Solid(b.b5) && Solid(b.b7) && Solid(b.b8))
    || (Space(b.b1) && Space(b.b2) && Solid(b.b3) && Space(b.b5) && Solid(b.b6) && Solid(b.b7))
  }

  /** p4 juts out: the block behind it, and the cells beside that block, decide whether it goes. */
  predicate OpenLeftUp(b: Blocks) { Space(b.b5) && Space(b.b8) && Space(b.b7) && Space(b.b6) && Space(b.b3) }
  predicate OpenUpRight(b: Blocks) { Space(b.b7) && Space(b.b6) && Space(b.b3) && Space(b.b0) && Space(b.b1) }
  predicate OpenRightDown(b: Blocks) { Space(b.b3) && Space(b.b0) && Space(b.b1) && Space(b.b2) && Space(b.b5) }
  predicate OpenDownLeft(b: Blocks) { Space(b.b1) && Space(b.b2) && Space(b.b5) && Space(b.b8) && Space(b.b7) }

  predicate Spike(b: Blocks) {
    if OpenLeftUp(b) then !Solid(b.b2) && !Solid(b.b0)
    else if OpenUpRight(b) then !Solid(b.b8) && !Solid(b.b2)
    else if OpenRightDown(b) then !Solid(b.b6) && !Solid(b.b8)
    else OpenDownLeft(b) && !Solid(b.b0) && !Solid(b.b6)
  }

  /** No rule applies to p4. */
  predicate Smooth(b: Blocks) {
    Plain(b.b4) ==> !Corner(b) && (Solid(b.b4) ==> !Spike(b))
  }

  // ---------------------------------------------------------------- what the rules mean

  /** The blocks around p4, clockwise from its upper left corner. */
  function Ring(b: Blocks): (r: seq<byte>)
    ensures |r| == 8
  {
    [b.b8, b.b7, b.b6, b.b3, b.b0, b.b1, b.b2, b.b5]
  }

  /** A wall corner: wall in the k-th corner and on both sides next to it, and space on the three opposite
      places. */
  predicate CornerAt(r: seq<byte>, k: int)
    requires |r| == 8
  {
    && 0 <= k < 4 && Solid(r[(2 * k + 7) % 8]) && Solid(r[2 * k]) && Solid(r[2 * k + 1])
    && Space(r[(2 * k + 3) % 8]) && Space(r[(2 * k + 4) % 8]) && Space(r[(2 * k + 5) % 8])
  }

  /** A wall end: space on side k, on the two sides beside it and between these; no wall in the two corners
      at the back. */
  predicate EndAt(r: seq<byte>, k: int)
    requires |r| == 8
  {
    && 0 <= k < 4 && Space(r[(2 * k + 7) % 8]) && Space(r[2 * k]) && Space(r[2 * k + 1])
    && Space(r[(2 * k + 2) % 8]) && Space(r[(2 * k + 3) % 8])
    && !Solid(r[(2 * k + 4) % 8]) && !Solid(r[(2 * k + 6) % 8])
  }

  /** The rules do the same in all four directions. */
  lemma RulesMean(b: Blocks)
    ensures Corner(b) <==> exists k :: CornerAt(Ring(b), k)
    ensures Spike(b) <==> exists k :: EndAt(Ring(b), k)
  {
    hide Ring, CornerAt, EndAt;
    CornerTable(b);
    EndTable(b);
    OneOfFour(b);
  }

  lemma CornerTable(b: Blocks)
    ensures var r := Ring(b);
            && (CornerAt(r, 0) <==>
                  (Space(b.b0) && Space(b.b1) && Space(b.b3) && Solid(b.b5) && Solid(b.b7) && Solid(b.b8)))
            && (CornerAt(r, 1) <==>
                  (Space(b.b1) && Space(b.b2) && Solid(b.b3) && Space(b.b5) && Solid(b.b6) && Solid(b.b7)))
            && (CornerAt(r, 2) <==>
                  (Solid(b.b0) && Solid(b.b1) && Solid(b.b3) && Space(b.b5) && Space(b.b7) && Space(b.b8)))
            && (CornerAt(r, 3) <==>
                  (Solid(b.b1) && Solid(b.b2) && Space(b.b3) && Solid(b.b5) && Space(b.b6) && Space(b.b7)))
  {
    hide Solid, Space;
  }

  lemma EndTable(b: Blocks)
    ensures var r := Ring(b);
            && (EndAt(r, 0) <==> (OpenLeftUp(b) && !Solid(b.b2) && !Solid(b.b0)))
            && (EndAt(r, 1) <==> (OpenUpRight(b) && !Solid(b.b8) && !Solid(b.b2)))
            && (EndAt(r, 2) <==> (OpenRightDown(b) && !Solid(b.b6) && !Solid(b.b8)))
            && (EndAt(r, 3) <==> (OpenDownLeft(b) && !Solid(b.b0) && !Solid(b.b6)))
  {
    hide Solid, Space;
  }

  lemma OneOfFour(b: Blocks)
    ensures (exists k :: CornerAt(Ring(b), k)) <==>
            CornerAt(Ring(b), 0) || CornerAt(Ring(b), 1) || CornerAt(Ring(b), 2) || CornerAt(Ring(b), 3)
    ensures (exists k :: EndAt(Ring(b), k)) <==>
            EndAt(Ring(b), 0) || EndAt(Ring(b), 1) || EndAt(Ring(b), 2) || EndAt(Ring(b), 3)
  {
    hide Ring, Solid, Space;
  }

  /** Where the solid half of block v reaches this side (0 right, 2 up, 4 left, 6 down), wall goes on beyond
      it, and elsewhere there is space. */
  ghost predicate Fits(v: byte, side: int, beyond: byte)
    requires side in {0, 2, 4, 6}
  {
    if WallParts.SolidSide(v as char, side) then Solid(beyond) else Space(beyond)
  }

  ghost predicate Faces(b: Blocks, v: byte) {
    Fits(v, 0, b.b3) && Fits(v, 2, b.b7) && Fits(v, 4, b.b5) && Fits(v, 6, b.b1)
  }

  lemma FitsTable(v: byte, side: int, beyond: byte)
    requires side in {0, 2, 4, 6}
    ensures Fits(v, side, beyond) <==> if side in WallParts.Ways(v as char) then Solid(beyond) else Space(beyond)
  {
    hide WallParts.SolidSide, WallParts.Ways;
    WallParts.WaysSolid(v as char, side);
  }

  lemma FacesTable(b: Blocks, v: byte)
    ensures Faces(b, v) <==>
            && (if 0 in WallParts.Ways(v as char) then Solid(b.b3) else Space(b.b3))
            && (if 2 in WallParts.Ways(v as char) then Solid(b.b7) else Space(b.b7))
            && (if 4 in WallParts.Ways(v as char) then Solid(b.b5) else Space(b.b5))
            && (if 6 in WallParts.Ways(v as char) then Solid(b.b1) else Space(b.b1))
  {
    hide Fits, WallParts.Ways;
    FitsTable(v, 0, b.b3);
    FitsTable(v, 2, b.b7);
    FitsTable(v, 4, b.b5);
    FitsTable(v, 6, b.b1);
  }

  /** What a corner is rounded to, and a spike cleared to. */
  ghost predicate Rounded(b: Blocks, v: byte) {
    if Corner(b) then Diagonal(v) && Faces(b, v) else Space(v)
  }

  /** One step: a corner or spike at p4 is rounded or cleared, and nothing else happens. */
  ghost predicate CellDone(d: seq<byte>, d': seq<byte>, s: Square, n: int)
    requires Inside(s, |d|)
  {
    if Smooth(BlocksOf(d, s)) then
      n == 0 && d' == d
    else
      n == 1 && |d'| == |d| && d' == d[s.p4 := d'[s.p4]] && Rounded(BlocksOf(d, s), d'[s.p4])
  }

  lemma DoneCounts(d: seq<byte>, d': seq<byte>, s: Square, n: int)
    requires Inside(s, |d|) && CellDone(d, d', s, n)
    ensures Smoothing(d, d', n)
  {
    hide Faces, Corner, Spike;
    if n == 1 {
      RoundsOne(d, s.p4, d'[s.p4]);
    }
  }

  /** What smoothing may do to a cell: solid blocks may become anything, spaces only diagonal blocks, and
      diagonal blocks stay. */
  predicate Rounds(b: byte, b': byte) {
    b' == b || (Solid(b) && (Space(b') || Diagonal(b'))) || (Space(b) && Diagonal(b'))
  }

  ghost predicate AllRounds(d: seq<byte>, d': seq<byte>) {
    |d| == |d'| && forall c :: 0 <= c < |d| ==> Rounds(d[c], d'[c])
  }

  ghost function Cells(d: seq<byte>, v: byte): set<int> {
    set c | 0 <= c < |d| && d[c] == v
  }

  /** n counts changes; each leaves fewer solid blocks, or as many and fewer spaces. */
  ghost predicate Smoothing(d: seq<byte>, d': seq<byte>, n: int) {
    && AllRounds(d, d') && 0 <= n && (n == 0 ==> d' == d)
    && Cells(d', BLOCK_SOLID) <= Cells(d, BLOCK_SOLID)
    && (0 < n && Cells(d', BLOCK_SOLID) == Cells(d, BLOCK_SOLID) ==> Cells(d', BLOCK_SPACE) < Cells(d, BLOCK_SPACE))
  }

  lemma RoundsOne(d: seq<byte>, c: int, b: byte)
    requires 0 <= c < |d| && b != d[c] && Rounds(d[c], b)
    ensures Smoothing(d, d[c := b], 1)
  {
    var d' := d[c := b];
    assert c !in Cells(d', d[c]) && c in Cells(d, d[c]);
  }

  lemma SmoothingAdd(d: seq<byte>, d': seq<byte>, d'': seq<byte>, n: int, m: int)
    requires Smoothing(d, d', n) && Smoothing(d', d'', m)
    ensures Smoothing(d, d'', n + m)
  {
    SameSolids(d, d');
    SameSolids(d', d'');
  }

  lemma SameSolids(d: seq<byte>, d': seq<byte>)
    requires AllRounds(d, d')
    ensures Cells(d', BLOCK_SOLID) == Cells(d, BLOCK_SOLID) ==> Cells(d', BLOCK_SPACE) <= Cells(d, BLOCK_SPACE)
  {
    if Cells(d', BLOCK_SOLID) == Cells(d, BLOCK_SOLID) {
      forall c | c in Cells(d', BLOCK_SPACE)
        ensures c in Cells(d, BLOCK_SPACE)
      {
        assert c !in Cells(d', BLOCK_SOLID);
      }
    }
  }

  lemma Unchanged(d: seq<byte>, d': seq<byte>)
    requires Smoothing(d, d', 0)
    ensures d' == d
  {
  }

  /** Only blocks that smoothing makes are on the map. */
  ghost predicate Walls(d: seq<byte>) {
    forall c :: 0 <= c < |d| ==> Plain(d[c]) || Diagonal(d[c])
  }
}

module SmoothMap {
  import opened HelixMap
  import opened Reach
  import opened WildMap
  import opened SmoothRules

  /** One step of a pass: round the corner at p4, or take it away. */
  method SmoothCell(wm: WildMap, s: Square) returns (n: int)
    requires wm.Valid() && Inside(s, wm.t.n)
    modifies wm.data
    ensures CellDone(old(wm.data[..]), wm.data[..], s, n)
  {
    hide Faces, WallParts.Ways;
    var d := wm.data;
    ghost var b := BlocksOf(d[..], s);
    n := 0;
    if d[s.p4] == BLOCK_SPACE || d[s.p4] == BLOCK_SOLID {
      RoundFaces(b);
      if d[s.p0] == BLOCK_SOLID && d[s.p1] == BLOCK_SOLID && d[s.p3] == BLOCK_SOLID
         && d[s.p5] == BLOCK_SPACE && d[s.p7] == BLOCK_SPACE && d[s.p8] == BLOCK_SPACE {
        d[s.p4] := BLOCK_DOWN_RIGHT;
        n := n + 1;
      } else if d[s.p1] == BLOCK_SOLID && d[s.p2] == BLOCK_SOLID && d[s.p3] == BLOCK_SPACE
                && d[s.p5] == BLOCK_SOLID && d[s.p6] == BLOCK_SPACE && d[s.p7] == BLOCK_SPACE {
        d[s.p4] := BLOCK_DOWN_LEFT;
        n := n + 1;
      } else if d[s.p0] == BLOCK_SPACE && d[s.p1] == BLOCK_SPACE && d[s.p3] == BLOCK_SPACE
                && d[s.p5] == BLOCK_SOLID && d[s.p7] == BLOCK_SOLID && d[s.p8] == BLOCK_SOLID {
        d[s.p4] := BLOCK_UP_LEFT;
        n := n + 1;
      } else if d[s.p1] == BLOCK_SPACE && d[s.p2] == BLOCK_SPACE && d[s.p3] == BLOCK_SOLID
                && d[s.p5] == BLOCK_SPACE && d[s.p6] == BLOCK_SOLID && d[s.p7] == BLOCK_SOLID {
        d[s.p4] := BLOCK_UP_RIGHT;
        n := n + 1;
      } else if d[s.p4] == BLOCK_SOLID {
        n := ClearSpike(wm, s);
      }
    }
  }

  /** Which diagonal block faces which sides. */
  lemma RoundFaces(b: Blocks)
    ensures Solid(b.b1) && Solid(b.b3) && Space(b.b5) && Space(b.b7) ==> Faces(b, BLOCK_DOWN_RIGHT)
    ensures Solid(b.b1) && Space(b.b3) && Solid(b.b5) && Space(b.b7) ==> Faces(b, BLOCK_DOWN_LEFT)
    ensures Space(b.b1) && Space(b.b3) && Solid(b.b5) && Solid(b.b7) ==> Faces(b, BLOCK_UP_LEFT)
    ensures Space(b.b1) && Solid(b.b3) && Space(b.b5) && Solid(b.b7) ==> Faces(b, BLOCK_UP_RIGHT)
  {
    hide Faces;
    FacesTable(b, BLOCK_DOWN_RIGHT);
    FacesTable(b, BLOCK_DOWN_LEFT);
    FacesTable(b, BLOCK_UP_LEFT);
    FacesTable(b, BLOCK_UP_RIGHT);
  }

  method ClearSpike(wm: WildMap, s: Square) returns (n: int)
    requires wm.Valid() && Inside(s, wm.t.n) && wm.data[s.p4] == BLOCK_SOLID
    modifies wm.data
    ensures n == if Spike(old(BlocksOf(wm.data[..], s))) then 1 else 0
    ensures wm.data[..] == if n == 1 then old(wm.data[..])[s.p4 := BLOCK_SPACE] else old(wm.data[..])
  {
    var d := wm.data;
    n := 0;
    if d[s.p5] == BLOCK_SPACE && d[s.p8] == BLOCK_SPACE && d[s.p7] == BLOCK_SPACE
       && d[s.p6] == BLOCK_SPACE && d[s.p3] == BLOCK_SPACE {
      if d[s.p2] != BLOCK_SOLID && d[s.p0] != BLOCK_SOLID {
        d[s.p4] := BLOCK_SPACE;
        n := n + 1;
      }
    } else if d[s.p7] == BLOCK_SPACE && d[s.p6] == BLOCK_SPACE && d[s.p3] == BLOCK_SPACE
              && d[s.p0] == BLOCK_SPACE && d[s.p1] == BLOCK_SPACE {
      if d[s.p8] != BLOCK_SOLID && d[s.p2] != BLOCK_SOLID {
        d[s.p4] := BLOCK_SPACE;
        n := n + 1;
      }
    } else if d[s.p3] == BLOCK_SPACE && d[s.p0] == BLOCK_SPACE && d[s.p1] == BLOCK_SPACE
              && d[s.p2] == BLOCK_SPACE && d[s.p5] == BLOCK_SPACE {
      if d[s.p6] != BLOCK_SOLID && d[s.p8] != BLOCK_SOLID {
        d[s.p4] := BLOCK_SPACE;
        n := n + 1;
      }
    } else if d[s.p1] == BLOCK_SPACE && d[s.p2] == BLOCK_SPACE && d[s.p5] == BLOCK_SPACE
              && d[s.p8] == BLOCK_SPACE && d[s.p7] == BLOCK_SPACE {
      if d[s.p0] != BLOCK_SOLID && d[s.p6] != BLOCK_SOLID {
        d[s.p4] := BLOCK_SPACE;
        n := n + 1;
      }
    }
  }

  /** The square one cell further on, as the pointers are moved. */
  function Moved(s: Square, n: int): Square {
    var p3, p6 := s.p3 + 1, s.p6 + 1;
    Square(s.p0 + 1, s.p0, s.p1, if p3 >= n then 0 else p3, s.p3, s.p4, if p6 >= n then 0 else p6, s.p6, s.p7)
  }

  /** The square at cell i of a pass: only the first one is displaced. */
  function PassSquare(t: Torus, i: int): Square
    requires t.Valid() && t.Has(i)
  {
    if i == 0 then FirstSquare(t) else SquareAt(t, i)
  }

  predicate BigEnough(t: Torus) { 3 <= t.lw && 3 * t.lw <= t.n }

  lemma MovedIsNext(t: Torus, i: int)
    requires t.Valid() && BigEnough(t) && t.Has(i) && i + 1 < t.n
    ensures Moved(PassSquare(t, i), t.n) == SquareAt(t, i + 1)
  {
  }

  lemma SquareInside(t: Torus, i: int)
    requires t.Valid() && BigEnough(t) && t.Has(i)
    ensures Inside(PassSquare(t, i), t.n)
    ensures i == 0 ==> var s := SquareAt(t, 0); PassSquare(t, 0) == s.(p5 := s.p5 - 1, p8 := s.p8 - 1)
  {
  }

  ghost predicate SmoothUpTo(t: Torus, d: seq<byte>, k: int)
    requires t.Valid()
  {
    |d| == t.n && forall i :: 0 <= i < k && t.Has(i) ==>
        Inside(PassSquare(t, i), t.n) && Smooth(BlocksOf(d, PassSquare(t, i)))
  }

  /** A corner or spike is rounded or cleared in the square that a pass looks at for cell i. */
  ghost predicate StepAt(t: Torus, d: seq<byte>, d': seq<byte>, i: int)
    requires t.Valid() && |d| == t.n && t.Has(i)
  {
    Inside(PassSquare(t, i), t.n) && CellDone(d, d', PassSquare(t, i), 1)
  }

  ghost function SmoothStep(t: Torus): (r: (seq<byte>, seq<byte>) -> bool)
    requires t.Valid()
    ensures forall d, d' :: r(d, d') <==> |d| == t.n && exists i :: t.Has(i) && StepAt(t, d, d', i)
  {
    (d, d') => |d| == t.n && exists i :: t.Has(i) && StepAt(t, d, d', i)
  }

  /** The map d' comes from d by such steps, n of them in all. */
  ghost predicate Run(t: Torus, d: seq<byte>, d': seq<byte>, n: int)
    requires t.Valid()
  {
    Smoothing(d, d', n) && Connected(SmoothStep(t), d, d')
  }

  lemma RunNone(t: Torus, d: seq<byte>)
    requires t.Valid()
    ensures Run(t, d, d, 0)
  {
    Refl(SmoothStep(t), d);
  }

  lemma RunAdd(t: Torus, d: seq<byte>, d': seq<byte>, d'': seq<byte>, n: int, m: int)
    requires t.Valid() && Run(t, d, d', n) && Run(t, d', d'', m)
    ensures Run(t, d, d'', n + m)
  {
    hide Smoothing, Connected, SmoothStep;
    SmoothingAdd(d, d', d'', n, m);
    Trans(SmoothStep(t), d, d', d'');
  }

  lemma CellRuns(t: Torus, d: seq<byte>, d': seq<byte>, i: int, n: int)
    requires t.Valid() && t.Has(i) && |d| == t.n && Inside(PassSquare(t, i), t.n)
    requires CellDone(d, d', PassSquare(t, i), n)
    ensures Run(t, d, d', n) && (n == 0 <==> Smooth(BlocksOf(d, PassSquare(t, i))))
  {
    hide Smoothing, Connected, PassSquare, Inside, Smooth, BlocksOf, Rounded;
    DoneCounts(d, d', PassSquare(t, i), n);
    Refl(SmoothStep(t), d);
    if n == 1 {
      assert StepAt(t, d, d', i);
      Extend(SmoothStep(t), d, d, d');
    }
  }

  /** One pass over the map. */
  method SmoothPass(wm: WildMap) returns (n: int)
    requires wm.Valid() && BigEnough(wm.t)
    modifies wm.data
    ensures Run(wm.t, old(wm.data[..]), wm.data[..], n)
    ensures n == 0 <==> SmoothUpTo(wm.t, old(wm.data[..]), wm.t.n)
  {
    hide Run, CellDone, SquareAt, Smooth, Inside, BlocksOf, FirstSquare;
    ghost var d := wm.data[..];
    n := 0;
    RunNone(wm.t, d);
    StartSquare(wm.t);
    var p3 := wm.t.n - wm.t.lw;
    var p6 := p3 - wm.t.lw;
    var s := Square(0, wm.t.n - 1, wm.t.n - 2, p3, p3 - 1, p3 - 3, p6, p6 - 1, p6 - 3);
    while s.p0 < wm.t.n
      invariant 0 <= s.p0 <= wm.t.n && (s.p0 < wm.t.n ==> s == PassSquare(wm.t, s.p0))
      invariant Run(wm.t, d, wm.data[..], n)
      invariant n == 0 <==> SmoothUpTo(wm.t, d, s.p0)
    {
      SquareInside(wm.t, s.p0);
      ghost var d1 := wm.data[..];
      var n1 := SmoothCell(wm, s);
      PassGoesOn(wm.t, s.p0, d, d1, wm.data[..], n, n1);
      n := n + n1;
      if s.p0 + 1 < wm.t.n {
        MovedIsNext(wm.t, s.p0);
      }
      s := Moved(s, wm.t.n);
    }
  }

  lemma StartSquare(t: Torus)
    requires t.Valid()
    ensures var p3 := t.n - t.lw; var p6 := p3 - t.lw;
            PassSquare(t, 0) == Square(0, t.n - 1, t.n - 2, p3, p3 - 1, p3 - 3, p6, p6 - 1, p6 - 3)
  {
  }

  lemma PassGoesOn(t: Torus, i: int, d: seq<byte>, d1: seq<byte>, d2: seq<byte>, n: int, n1: int)
    requires t.Valid() && t.Has(i) && Inside(PassSquare(t, i), t.n) && |d| == |d1| == t.n
    requires Run(t, d, d1, n) && CellDone(d1, d2, PassSquare(t, i), n1)
    requires n == 0 <==> SmoothUpTo(t, d, i)
    ensures Run(t, d, d2, n + n1) && (n + n1 == 0 <==> SmoothUpTo(t, d, i + 1))
  {
    hide Connected, SmoothStep, AllRounds, Cells, CellDone, Smooth, Inside, BlocksOf, PassSquare;
    CellRuns(t, d1, d2, i, n1);
    RunAdd(t, d, d1, d2, n, n1);
    if SmoothUpTo(t, d, i + 1) {
      assert SmoothUpTo(t, d, i) && Smooth(BlocksOf(d, PassSquare(t, i)));
    }
  }

  /** Walls become solid blocks, the rest becomes space. */
  ghost function Blocked(d: seq<byte>): (b: seq<byte>)
    ensures |b| == |d| && forall c :: 0 <= c < |d| ==> b[c] == if d[c] != 0 then BLOCK_SOLID else BLOCK_SPACE
  {
    seq(|d|, c requires 0 <= c < |d| => if d[c] != 0 then BLOCK_SOLID else BLOCK_SPACE)
  }

  /** Smooth_map: it ends; from the map of solid blocks and spaces it rounds corners and clears spikes, one by
      one, and does nothing else, until no rule applies to any square that a pass looks at. */
  method SmoothMap(wm: WildMap)
    requires wm.Valid() && BigEnough(wm.t)
    modifies wm.data
    ensures Connected(SmoothStep(wm.t), Blocked(old(wm.data[..])), wm.data[..])
    ensures Walls(wm.data[..])
    ensures forall c :: 0 <= c < wm.data.Length && old(wm.data[c]) == 0 ==>
            wm.data[c] == BLOCK_SPACE || Diagonal(wm.data[c])
    ensures SmoothUpTo(wm.t, wm.data[..], wm.t.n)
  {
    hide SmoothUpTo, Cells, Connected, SmoothStep;
    var todo := wm.t.n;
    while todo > 0
      invariant 0 <= todo <= wm.t.n
      invariant forall c :: 0 <= c < todo ==> wm.data[c] == old(wm.data[c])
      invariant forall c :: todo <= c < wm.t.n ==>
                  wm.data[c] == if old(wm.data[c]) != 0 then BLOCK_SOLID else BLOCK_SPACE
    {
      todo := todo - 1;
      wm.data[todo] := if wm.data[todo] != 0 then BLOCK_SOLID else BLOCK_SPACE;
    }
    ghost var d0 := wm.data[..];
    assert d0 == Blocked(old(wm.data[..]));
    RunNone(wm.t, d0);
    var n := 1;
    ghost var total := 0;
    while n > 0
      invariant 0 <= n && Run(wm.t, d0, wm.data[..], total)
      invariant n == 0 ==> SmoothUpTo(wm.t, wm.data[..], wm.t.n)
      decreases Cells(wm.data[..], BLOCK_SOLID), Cells(wm.data[..], BLOCK_SPACE), n
    {
      ghost var d := wm.data[..];
      n := SmoothPass(wm);
      RunAdd(wm.t, d0, d, wm.data[..], total, n);
      total := total + n;
    }
  }

  /** A map is smooth, as a pass sees it, exactly if it is at the end of its steps. */
  lemma SmoothIsEnd(t: Torus, d: seq<byte>)
    requires t.Valid() && BigEnough(t) && |d| == t.n
    ensures SmoothUpTo(t, d, t.n) <==> forall d' :: !SmoothStep(t)(d, d')
  {
    hide Smooth, PassSquare, BlocksOf, Inside, Rounded;
    if forall d' :: !SmoothStep(t)(d, d') {
      forall i | 0 <= i < t.n
        ensures Inside(PassSquare(t, i), t.n) && Smooth(BlocksOf(d, PassSquare(t, i)))
      {
        SquareInside(t, i);
        SomeStep(t, d, i);
      }
    }
  }

  lemma SomeStep(t: Torus, d: seq<byte>, i: int)
    requires t.Valid() && |d| == t.n && t.Has(i) && Inside(PassSquare(t, i), t.n)
    ensures Smooth(BlocksOf(d, PassSquare(t, i))) || exists d' :: SmoothStep(t)(d, d')
  {
    hide Faces, PassSquare, Spike, WallParts.Ways;
    var s := PassSquare(t, i);
    var b := BlocksOf(d, s);
    if !Smooth(b) {
      RoundFaces(b);
      var v := if !Corner(b) then BLOCK_SPACE
               else if Solid(b.b1) then if Solid(b.b3) then BLOCK_DOWN_RIGHT else BLOCK_DOWN_LEFT
               else if Solid(b.b3) then BLOCK_UP_RIGHT else BLOCK_UP_LEFT;
      assert StepAt(t, d, d[s.p4 := v], i);
      assert SmoothStep(t)(d, d[s.p4 := v]);
    }
  }

  /** Everywhere but at the first cell of a pass, no corner is left to round and no spike to clear. */
  lemma SmoothMeans(t: Torus, d: seq<byte>, i: int)
    requires t.Valid() && BigEnough(t) && SmoothUpTo(t, d, t.n) && 0 < i < t.n
    ensures Inside(SquareAt(t, i), t.n) && Smooth(BlocksOf(d, SquareAt(t, i)))
  {
    assert PassSquare(t, i) == SquareAt(t, i);
  }

  // ---------------------------------------------------------------- the first cell

  /** The values x and y of the two displaced cells with which a pass overlooks the corner in b. */
  predicate Overlooked(b: Blocks, x: byte, y: byte) {
    && (Solid(b.b1) && Solid(b.b3) ==> !Space(x) || !Space(y))
    && (Solid(b.b1) && Space(b.b3) ==> !Solid(x))
    && (Space(b.b1) && Solid(b.b3) ==> !Space(x))
    && (Space(b.b1) && Space(b.b3) ==>
          && (!Solid(x) || !Solid(y))
          && !(Solid(b.b4) && Space(b.b2) && Space(x) && !Solid(b.b6) && !Solid(y)))
  }

  lemma CornerOverlooked(b: Blocks, x: byte, y: byte)
    requires Plain(b.b4) && Corner(b)
    ensures Smooth(b.(b5 := x, b8 := y)) <==> Overlooked(b, x, y)
  {
  }

  /** A map with a corner in the square of the first cell, to which no rule applies elsewhere, is left as it
      is exactly if the cells beside the two that belong there let the corner be overlooked. */
  lemma FirstCornerMissed(t: Torus, d: seq<byte>)
    requires t.Valid() && BigEnough(t) && |d| == t.n && Inside(SquareAt(t, 0), t.n)
    requires var b := BlocksOf(d, SquareAt(t, 0)); Plain(b.b4) && Corner(b)
    requires forall i :: 0 < i < t.n ==> Inside(SquareAt(t, i), t.n) && Smooth(BlocksOf(d, SquareAt(t, i)))
    ensures var s := SquareAt(t, 0);
            && 0 < s.p5 && 0 < s.p8
            && (SmoothUpTo(t, d, t.n) <==> Overlooked(BlocksOf(d, s), d[s.p5 - 1], d[s.p8 - 1]))
  {
    hide Corner, Overlooked, Smooth, BlocksOf, SquareAt, PassSquare, SmoothUpTo;
    SquareInside(t, 0);
    FirstBlocks(t, d);
    var s := SquareAt(t, 0);
    CornerOverlooked(BlocksOf(d, s), d[s.p5 - 1], d[s.p8 - 1]);
    OtherSquares(t, d);
  }

  lemma FirstBlocks(t: Torus, d: seq<byte>)
    requires t.Valid() && BigEnough(t) && |d| == t.n && Inside(SquareAt(t, 0), t.n) && Inside(PassSquare(t, 0), t.n)
    ensures var s := SquareAt(t, 0);
            && 0 < s.p5 && 0 < s.p8
            && BlocksOf(d, PassSquare(t, 0)) == BlocksOf(d, s).(b5 := d[s.p5 - 1], b8 := d[s.p8 - 1])
  {
  }

  lemma OtherSquares(t: Torus, d: seq<byte>)
    requires t.Valid() && BigEnough(t) && |d| == t.n && Inside(PassSquare(t, 0), t.n)
    requires forall i :: 0 < i < t.n ==> Inside(SquareAt(t, i), t.n) && Smooth(BlocksOf(d, SquareAt(t, i)))
    ensures SmoothUpTo(t, d, t.n) <==> Smooth(BlocksOf(d, PassSquare(t, 0)))
  {
    hide Smooth, SquareAt, FirstSquare, BlocksOf;
    if SmoothUpTo(t, d, t.n) {
      assert t.Has(0);
    }
    if Smooth(BlocksOf(d, PassSquare(t, 0))) {
      forall i | 0 <= i < t.n
        ensures Inside(PassSquare(t, i), t.n) && Smooth(BlocksOf(d, PassSquare(t, i)))
      {
        if 0 < i {
          assert PassSquare(t, i) == SquareAt(t, i);
        }
      }
    }
  }

  /** A wall of one line around the torus, and one block on it. */
  predicate OnLine(t: Torus, c: int) {
    c <= t.lw - 3 || t.n - 2 <= c || c == t.n - t.lw - 2
  }

  function LineMap(t: Torus): (d: seq<byte>)
    ensures |d| == t.n && forall c :: 0 <= c < t.n ==> d[c] == if OnLine(t, c) then BLOCK_SOLID else BLOCK_SPACE
  {
    seq(t.n, c requires 0 <= c < t.n => if OnLine(t, c) then BLOCK_SOLID else BLOCK_SPACE)
  }

  lemma LineSettledBelow(t: Torus, i: int)
    requires t.Valid() && BigEnough(t) && 0 <= i < t.lw
    ensures Inside(PassSquare(t, i), t.n) && Smooth(BlocksOf(LineMap(t), PassSquare(t, i)))
  {
    SquareInside(t, i);
  }

  lemma LineSettledNear(t: Torus, i: int)
    requires t.Valid() && BigEnough(t) && t.lw <= i < 2 * t.lw
    ensures Inside(PassSquare(t, i), t.n) && Smooth(BlocksOf(LineMap(t), PassSquare(t, i)))
  {
    SquareInside(t, i);
  }

  lemma LineSettledAbove(t: Torus, i: int)
    requires t.Valid() && BigEnough(t) && 2 * t.lw <= i < t.n
    ensures Inside(PassSquare(t, i), t.n) && Smooth(BlocksOf(LineMap(t), PassSquare(t, i)))
  {
    SquareInside(t, i);
  }

  /** The line map is settled, but the square of the first cell has a corner to round. */
  lemma LineSettled(t: Torus, i: int)
    requires t.Valid() && BigEnough(t) && t.Has(i)
    ensures Inside(PassSquare(t, i), t.n) && Smooth(BlocksOf(LineMap(t), PassSquare(t, i)))
  {
    hide Smooth, BlocksOf, PassSquare, Inside;
    if i < t.lw {
      LineSettledBelow(t, i);
    } else if i < 2 * t.lw {
      LineSettledNear(t, i);
    } else {
      LineSettledAbove(t, i);
    }
  }

  lemma LineCorner(t: Torus)
    requires t.Valid() && BigEnough(t)
    ensures Inside(SquareAt(t, 0), t.n) && !Smooth(BlocksOf(LineMap(t), SquareAt(t, 0)))
  {
  }

  ghost predicate SmoothAt(t: Torus, d: seq<byte>, i: int)
    requires t.Valid() && t.Has(i) && |d| == t.n
  {
    Inside(SquareAt(t, i), t.n) && Smooth(BlocksOf(d, SquareAt(t, i)))
  }

  /** On every torus, all settled maps are smooth at a cell if and only if it is not the first one. */
  lemma SmoothButFirst(t: Torus, i: int)
    requires t.Valid() && BigEnough(t) && t.Has(i)
    ensures (forall d :: SmoothUpTo(t, d, t.n) ==> SmoothAt(t, d, i)) <==> 0 < i
  {
    hide Smooth, BlocksOf, SquareAt, PassSquare, OnLine, Inside;
    if 0 < i {
      forall d | SmoothUpTo(t, d, t.n)
        ensures SmoothAt(t, d, i)
      {
        SmoothMeans(t, d, i);
      }
    } else {
      forall k | 0 <= k < t.n
        ensures Inside(PassSquare(t, k), t.n) && Smooth(BlocksOf(LineMap(t), PassSquare(t, k)))
      {
        LineSettled(t, k);
      }
      LineCorner(t);
      assert SmoothUpTo(t, LineMap(t), t.n) && !SmoothAt(t, LineMap(t), i);
    }
  }

  // ---------------------------------------------------------------- which way rounded corners face

  /** The solid half of block v reaches exactly those sides of cell c that have wall beyond them, and beyond
      the other sides is space. */
  ghost predicate FacesWalls(t: Torus, d: seq<byte>, c: int, v: byte)
    requires t.Valid() && |d| == t.n && t.Has(c)
  {
    && Fits(v, 0, d[t.Right(c)]) && Fits(v, 2, d[t.Up(c)]) && Fits(v, 4, d[t.Left(c)]) && Fits(v, 6, d[t.Down(c)])
  }

  /** The cell in the middle of the square for cell i. */
  function Middle(t: Torus, i: int): (c: int)
    requires t.Valid() && t.Has(i)
    ensures t.Has(c)
  {
    t.Left(t.Up(i))
  }

  lemma SquareSides(t: Torus, i: int)
    requires t.Valid() && BigEnough(t) && t.Has(i)
    ensures var s, c := SquareAt(t, i), Middle(t, i);
            s.p4 == c && s.p3 == t.Right(c) && s.p7 == t.Up(c) && s.p5 == t.Left(c) && s.p1 == t.Down(c)
    ensures PassSquare(t, i).p4 == Middle(t, i)
  {
  }

  /** A step changes one cell.  A diagonal block that it puts there has its solid half at the walls. */
  lemma StepFaces(t: Torus, d: seq<byte>, d': seq<byte>, i: int)
    requires t.Valid() && BigEnough(t) && |d| == t.n && t.Has(i) && StepAt(t, d, d', i)
    ensures |d'| == t.n && forall c :: 0 <= c < t.n && c != Middle(t, i) ==> d'[c] == d[c]
    ensures var v := d'[Middle(t, i)]; Plain(d[Middle(t, i)]) && (Space(v) || Diagonal(v))
    ensures 0 < i && Diagonal(d'[Middle(t, i)]) ==> FacesWalls(t, d, Middle(t, i), d'[Middle(t, i)])
  {
    hide Fits, Middle, Corner, Spike, SquareAt, FirstSquare;
    SquareSides(t, i);
  }

  ghost predicate AlwaysFaces(t: Torus, i: int)
    requires t.Valid() && t.Has(i)
  {
    forall d, d' :: |d| == t.n && StepAt(t, d, d', i) ==>
        |d'| == t.n && (Diagonal(d'[Middle(t, i)]) ==> FacesWalls(t, d, Middle(t, i), d'[Middle(t, i)]))
  }

  /** Every rounded corner has its solid half at the walls, if and only if it is not rounded in the first
      square of a pass, or the map has no more than nine cells. */
  lemma FacesButFirst(t: Torus, i: int)
    requires t.Valid() && BigEnough(t) && t.Has(i)
    ensures AlwaysFaces(t, i) <==> 0 < i || t.n == 9
  {
    hide StepAt, FacesWalls, Middle;
    if 0 < i || t.n == 9 {
      forall d, d' | |d| == t.n && StepAt(t, d, d', i)
        ensures |d'| == t.n && (Diagonal(d'[Middle(t, i)]) ==> FacesWalls(t, d, Middle(t, i), d'[Middle(t, i)]))
      {
        StepFaces(t, d, d', i);
        if i == 0 {
          NineCells(t, d, d');
        }
      }
    } else {
      SpoiltStep(t);
    }
  }

  lemma NineCells(t: Torus, d: seq<byte>, d': seq<byte>)
    requires t.Valid() && BigEnough(t) && |d| == t.n == 9 && StepAt(t, d, d', 0)
    ensures |d'| == t.n && !Diagonal(d'[Middle(t, 0)])
  {
    hide Faces, Spike;
    assert t.lw == 3;
    assert !Corner(BlocksOf(d, PassSquare(t, 0)));
  }

  /** A wall that goes on to the left of the first corner: the displaced pointer looks past it. */
  function SpoiltMap(t: Torus): (d: seq<byte>)
    requires t.Valid() && BigEnough(t)
    ensures |d| == t.n
    ensures forall c :: 0 <= c < t.n ==>
              d[c] == if c in {0, t.n - 1, t.n - t.lw, t.n - t.lw - 2} then BLOCK_SOLID else BLOCK_SPACE
  {
    seq(t.n, c requires 0 <= c < t.n =>
        if c in {0, t.n - 1, t.n - t.lw, t.n - t.lw - 2} then BLOCK_SOLID else BLOCK_SPACE)
  }

  lemma SpoiltStep(t: Torus)
    requires t.Valid() && BigEnough(t) && 9 < t.n
    ensures !AlwaysFaces(t, 0)
  {
    hide Faces, Fits, Spike, WallParts.Ways;
    var d, s := SpoiltMap(t), PassSquare(t, 0);
    var d' := d[s.p4 := BLOCK_DOWN_RIGHT];
    SquareInside(t, 0);
    RoundFaces(BlocksOf(d, s));
    assert StepAt(t, d, d', 0);
    NotLeft(t);
  }

  lemma NotLeft(t: Torus)
    requires t.Valid() && BigEnough(t)
    ensures !FacesWalls(t, SpoiltMap(t), Middle(t, 0), BLOCK_DOWN_RIGHT)
  {
    hide Fits;
    FitsTable(BLOCK_DOWN_RIGHT, 4, BLOCK_SOLID);
    assert t.Left(Middle(t, 0)) == t.n - t.lw - 2;
  }
}
