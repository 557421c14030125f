/** Connect_map of wildmap.c: fill the gaps between constructs that almost touch, until no rule applies. */
module ConnectRules {
  import opened HelixMap
  import opened WildMap

  /** The neighbourhood that the pointers p0 ... p9 and pa walk over the map: p0, three cells to its left,
      the same for the line above (p4, p5, p6) and the one above that (p7, p8, p9), and three lines up. */
  datatype Window = Window(p0: int, p1: int, p2: int, p3: int, p4: int, p5: int, p6: int, p7: int, p8: int, p9: int,
                           pa: int)

  function WindowAt(t: Torus, i: int): (w: Window)
    requires t.Valid() && t.Has(i)
  {
    var up := t.Up(i);
    var up2 := t.Up(up);
    Window(i, t.Left(i), t.Left(t.Left(i)), t.Left(t.Left(t.Left(i))),
           up, t.Left(up), t.Left(t.Left(up)),
           up2, t.Left(up2), t.Left(t.Left(up2)), t.Up(up2))
  }

  predicate Inside(w: Window, n: int) {
    && 0 <= w.p0 < n && 0 <= w.p1 < n && 0 <= w.p2 < n && 0 <= w.p3 < n && 0 <= w.p4 < n && 0 <= w.p5 < n
    && 0 <= w.p6 < n && 0 <= w.p7 < n && 0 <= w.p8 < n && 0 <= w.p9 < n && 0 <= w.pa < n
  }

  /** The cells that one step may fill are different. */
  predicate Apart(w: Window) {
    && w.p0 != w.p1 && w.p0 != w.p2 && w.p0 != w.p4 && w.p0 != w.p5 && w.p0 != w.p7
    && w.p1 != w.p2 && w.p1 != w.p4 && w.p1 != w.p5 && w.p1 != w.p7
    && w.p2 != w.p4 && w.p2 != w.p5 && w.p2 != w.p7
    && w.p4 != w.p5 && w.p4 != w.p7 && w.p5 != w.p7
  }

  /** Sizes the pointers are made for. */
  predicate BigEnough(t: Torus) {
    4 <= t.lw && 4 * t.lw <= t.n
  }

  lemma WindowApart(t: Torus, i: int)
    requires t.Valid() && BigEnough(t) && t.Has(i)
    ensures Inside(WindowAt(t, i), t.n) && Apart(WindowAt(t, i))
  {
  }

  /** Which cells of a window are filled. */
  datatype Bits = Bits(b0: bool, b1: bool, b2: bool, b3: bool, b4: bool, b5: bool, b6: bool, b7: bool, b8: bool,
                       b9: bool, ba: bool)

  function BitsOf(d: seq<byte>, w: Window): Bits
    requires Inside(w, |d|)
  {
    Bits(d[w.p0] != 0, d[w.p1] != 0, d[w.p2] != 0, d[w.p3] != 0, d[w.p4] != 0, d[w.p5] != 0,
         d[w.p6] != 0, d[w.p7] != 0, d[w.p8] != 0, d[w.p9] != 0, d[w.pa] != 0)
  }

  /** No rule about gaps beside or above p0, or about the diagonals of its square, applies. */
  predicate NoGap(b: Bits) {
    && (b.b0 && !b.b1 ==> !b.b2 && !b.b3)
    && (b.b0 && !b.b4 ==> !b.b7 && !b.ba)
    && (b.b0 && b.b5 ==> b.b1 || b.b4)
    && (!b.b0 && !b.b5 ==> !b.b1 || !b.b4)
  }

  /** No rule for filling p5 applies. */
  predicate NoCorner(b: Bits) {
    b.b5 ||
    (&& !((b.b0 || (b.b1 && b.b4)) && b.b9)
     && !(b.b6 && b.b8 && b.b0)
     && !(b.b2 && (b.b7 || (b.b4 && b.b8)))
     && !(b.b7 && b.b1 && b.b6)
     && !(!b.b0 && !b.b1 && b.b2 && !b.b4 && b.b6 && b.b7 && b.b8 && b.b9)
     && !(b.b0 && !b.b1 && !b.b2 && b.b4 && !b.b6 && b.b7 && b.b8 && b.b9)
     && !(b.b0 && b.b1 && b.b2 && b.b4 && !b.b6 && b.b7 && !b.b8 && !b.b9)
     && !(b.b0 && b.b1 && b.b2 && !b.b4 && b.b6 && !b.b7 && !b.b8 && b.b9)
     && !(b.b0 && !b.b1 && !b.b2 && !b.b4 && !b.b6 && !b.b7 && b.b8 && !b.b9)
     && !(!b.b0 && !b.b1 && b.b2 && !b.b4 && !b.b6 && !b.b7 && b.b8 && !b.b9)
     && !(b.b0 && !b.b1 && !b.b2 && !b.b4 && b.b6 && !b.b7 && !b.b8 && !b.b9)
     && !(!b.b0 && !b.b1 && !b.b2 && !b.b4 && b.b6 && b.b7 && !b.b8 && !b.b9)
     && !(!b.b0 && b.b1 && !b.b2 && !b.b4 && !b.b6 && !b.b7 && !b.b8 && b.b9)
     && !(!b.b0 && b.b1 && !b.b2 && !b.b4 && !b.b6 && b.b7 && !b.b8 && !b.b9)
     && !(!b.b0 && !b.b1 && !b.b2 && b.b4 && !b.b6 && !b.b7 && !b.b8 && b.b9)
     && !(!b.b0 && !b.b1 && b.b2 && b.b4 && !b.b6 && !b.b7 && !b.b8 && !b.b9))
  }

  predicate Settled(t: Torus, d: seq<byte>, i: int)
    requires t.Valid() && |d| == t.n && t.Has(i) && Inside(WindowAt(t, i), t.n)
  {
    var b := BitsOf(d, WindowAt(t, i));
    NoGap(b) && NoCorner(b)
  }

  /** Filled cells keep their value; other cells stay empty or get filled with a value on the map. */
  ghost predicate Fills(d: seq<byte>, d': seq<byte>) {
    |d| == |d'| && forall c :: 0 <= c < |d| ==> d'[c] == d[c] || (d[c] == 0 && d'[c] != 0 && d'[c] in d)
  }

  ghost function Empty(d: seq<byte>): set<int> {
    set c | 0 <= c < |d| && d[c] == 0
  }

  /** n counts: nothing changed if it is 0, and otherwise there are fewer empty cells. */
  ghost predicate Counted(d: seq<byte>, d': seq<byte>, n: int) {
    && Fills(d, d') && 0 <= n
    && (n == 0 ==> d' == d)
    && (0 < n ==> Empty(d') < Empty(d))
  }

  lemma FillsTrans(d: seq<byte>, d': seq<byte>, d'': seq<byte>)
    requires Fills(d, d') && Fills(d', d'')
    ensures Fills(d, d'')
  {
    forall c | 0 <= c < |d|
      ensures d''[c] == d[c] || (d[c] == 0 && d''[c] != 0 && d''[c] in d)
    {
      if d''[c] != d'[c] {
        var k :| 0 <= k < |d'| && d'[k] == d''[c];
        assert d'[k] in d;
      }
    }
  }

  lemma FillsLess(d: seq<byte>, d': seq<byte>)
    requires Fills(d, d')
    ensures Empty(d') <= Empty(d) && (d' != d ==> Empty(d') < Empty(d))
  {
    if d' != d {
      var c :| 0 <= c < |d| && d'[c] != d[c];
      assert c in Empty(d) && c !in Empty(d');
    }
  }

  lemma CountedAdd(d: seq<byte>, d': seq<byte>, d'': seq<byte>, n: int, m: int)
    requires Counted(d, d', n) && Counted(d', d'', m)
    ensures Counted(d, d'', n + m)
  {
    hide Empty;
    FillsTrans(d, d', d'');
    FillsLess(d, d');
    FillsLess(d', d'');
  }

  lemma CountedNone(d: seq<byte>)
    ensures Counted(d, d, 0)
  {
  }

  // ---------------------------------------------------------------- what one rule does

  /** d' is d with the empty cells of gap filled with the value of the filled cell k. */
  ghost predicate Filled(d: seq<byte>, d': seq<byte>, gap: set<int>, k: int) {
    && |d'| == |d| && 0 <= k < |d| && d[k] != 0 && gap != {}
    && (forall c :: c in gap ==> 0 <= c < |d| && d[c] == 0)
    && (forall c :: 0 <= c < |d| ==> d'[c] == if c in gap then d[k] else d[c])
  }

  lemma FilledCounted(d: seq<byte>, d': seq<byte>, gap: set<int>, k: int)
    requires Filled(d, d', gap, k)
    ensures Counted(d, d', 1)
  {
    assert d[k] in d;
    assert d' != d by {
      if d' == d {
        assert forall c :: c !in gap;
      }
    }
    FillsLess(d, d');
  }

  /** Four cells of a line: the first one is filled, and a gap of one or two empty cells follows it. */
  predicate Narrow(d: seq<byte>, a: int, b: int, c: int, e: int)
    requires 0 <= a < |d| && 0 <= b < |d| && 0 <= c < |d| && 0 <= e < |d|
  {
    d[a] != 0 && d[b] == 0 && (d[c] != 0 || d[e] != 0)
  }

  /** A narrow gap is filled, nothing else; if the gap is not narrow, nothing happens. */
  ghost predicate Bridged(d: seq<byte>, d': seq<byte>, a: int, b: int, c: int, e: int, n: int)
    requires 0 <= a < |d| && 0 <= b < |d| && 0 <= c < |d| && 0 <= e < |d|
  {
    if Narrow(d, a, b, c, e) then
      n == 1 && Filled(d, d', if d[c] != 0 then {b} else {b, c}, a)
    else
      n == 0 && d' == d
  }

  /** The square of four cells is filled on the diagonal from a to c only. */
  predicate Diagonal(d: seq<byte>, a: int, b: int, c: int, e: int)
    requires 0 <= a < |d| && 0 <= b < |d| && 0 <= c < |d| && 0 <= e < |d|
  {
    d[a] != 0 && d[b] == 0 && d[c] != 0 && d[e] == 0
  }

  /** Of a square filled on one diagonal only the free pair is filled; otherwise nothing happens. */
  ghost predicate Squared(d: seq<byte>, d': seq<byte>, a: int, b: int, c: int, e: int, n: int)
    requires 0 <= a < |d| && 0 <= b < |d| && 0 <= c < |d| && 0 <= e < |d|
  {
    if Diagonal(d, a, b, c, e) then
      n == 1 && Filled(d, d', {b, e}, a)
    else if Diagonal(d, b, c, e, a) then
      n == 1 && Filled(d, d', {a, c}, b)
    else
      n == 0 && d' == d
  }

  /** Around an empty cell, clockwise from a corner, only the neighbours at i and j are filled. */
  predicate Only(ring: seq<bool>, i: int, j: int)
    requires |ring| == 8
  {
    forall k :: 0 <= k < 8 ==> (ring[k] <==> k == i || k == j)
  }

  /** The k-th corner of the ring is filled, and across the middle so is the opposite corner, or are both
      sides next to that one, or one of these two sides and nothing else in the ring. */
  predicate PinchedAt(ring: seq<bool>, k: int)
    requires |ring| == 8
  {
    && 0 <= k < 4 && ring[2 * k]
    && var c, s, s' := (2 * k + 4) % 8, (2 * k + 3) % 8, (2 * k + 5) % 8;
       ring[c] || (ring[s] && ring[s']) || Only(ring, 2 * k, s) || Only(ring, 2 * k, s')
  }

  /** Wall passes the middle of the ring on diagonally opposite sides. */
  predicate Pinched(ring: seq<bool>)
    requires |ring| == 8
  {
    exists k :: 0 <= k < 4 && PinchedAt(ring, k)
  }

  /** The neighbours of p5, clockwise from its upper left corner. */
  function Ring(b: Bits): (r: seq<bool>)
    ensures |r| == 8
  {
    [b.b9, b.b8, b.b7, b.b4, b.b0, b.b1, b.b2, b.b6]
  }

  lemma OnlyEight(r: seq<bool>, i: int, j: int)
    requires |r| == 8
    ensures Only(r, i, j) <==>
            && (r[0] <==> 0 == i || 0 == j) && (r[1] <==> 1 == i || 1 == j) && (r[2] <==> 2 == i || 2 == j)
            && (r[3] <==> 3 == i || 3 == j) && (r[4] <==> 4 == i || 4 == j) && (r[5] <==> 5 == i || 5 == j)
            && (r[6] <==> 6 == i || 6 == j) && (r[7] <==> 7 == i || 7 == j)
  {
  }

  lemma OnlyMeans(b: Bits, i: int, j: int)
    ensures Only(Ring(b), i, j) <==>
            && (b.b9 <==> 0 == i || 0 == j) && (b.b8 <==> 1 == i || 1 == j) && (b.b7 <==> 2 == i || 2 == j)
            && (b.b4 <==> 3 == i || 3 == j) && (b.b0 <==> 4 == i || 4 == j) && (b.b1 <==> 5 == i || 5 == j)
            && (b.b2 <==> 6 == i || 6 == j) && (b.b6 <==> 7 == i || 7 == j)
  {
    hide Only;
    OnlyEight(Ring(b), i, j);
  }

  lemma PinchedMeans(b: Bits)
    ensures Pinched(Ring(b)) <==>
            var r := Ring(b);
            || (b.b9 && (b.b0 || (b.b4 && b.b1) || Only(r, 0, 3) || Only(r, 0, 5)))
            || (b.b7 && (b.b2 || (b.b1 && b.b6) || Only(r, 2, 5) || Only(r, 2, 7)))
            || (b.b0 && (b.b9 || (b.b6 && b.b8) || Only(r, 4, 7) || Only(r, 4, 1)))
            || (b.b2 && (b.b7 || (b.b8 && b.b4) || Only(r, 6, 1) || Only(r, 6, 3)))
  {
    hide Only;
    var r := Ring(b);
    assert PinchedAt(r, 0) <==> (b.b9 && (b.b0 || (b.b4 && b.b1) || Only(r, 0, 3) || Only(r, 0, 5)));
    assert PinchedAt(r, 1) <==> (b.b7 && (b.b2 || (b.b1 && b.b6) || Only(r, 2, 5) || Only(r, 2, 7)));
    assert PinchedAt(r, 2) <==> (b.b0 && (b.b9 || (b.b6 && b.b8) || Only(r, 4, 7) || Only(r, 4, 1)));
    assert PinchedAt(r, 3) <==> (b.b2 && (b.b7 || (b.b8 && b.b4) || Only(r, 6, 1) || Only(r, 6, 3)));
  }

  /** The sixteen rules for filling p5 come to this; those with more than two filled cells among them are never
      needed. */
  lemma CornerRules(b: Bits)
    ensures NoCorner(b) <==> b.b5 || !Pinched(Ring(b))
  {
    hide Only, Pinched, Ring;
    PinchedMeans(b);
    OnlyMeans(b, 0, 3);
    OnlyMeans(b, 0, 5);
    OnlyMeans(b, 2, 5);
    OnlyMeans(b, 2, 7);
    OnlyMeans(b, 4, 7);
    OnlyMeans(b, 4, 1);
    OnlyMeans(b, 6, 1);
    OnlyMeans(b, 6, 3);
  }

  ghost predicate CornerFrom(d: seq<byte>, d': seq<byte>, c: int, around: seq<int>) {
    exists k :: k in around && Filled(d, d', {c}, k)
  }

  /** An empty cell p5 that is pinched gets the value of a filled neighbour; otherwise nothing happens. */
  ghost predicate Cornered(d: seq<byte>, d': seq<byte>, w: Window, n: int)
    requires Inside(w, |d|)
  {
    if d[w.p5] == 0 && Pinched(Ring(BitsOf(d, w))) then
      n == 1 && CornerFrom(d, d', w.p5, Neighbours(w))
    else
      n == 0 && d' == d
  }

  /** The eight cells around p5, clockwise from its upper left corner. */
  function Neighbours(w: Window): seq<int> {
    [w.p9, w.p8, w.p7, w.p4, w.p0, w.p1, w.p2, w.p6]
  }
}

/** What connecting does to the map as a whole, without its pointers. */
module ConnectSteps {
  import opened HelixMap
  import opened Reach
  import opened ConnectRules

  /** The eight cells around cell i, clockwise from its upper left corner. */
  function Around(t: Torus, i: int): (s: seq<int>)
    requires t.Valid() && t.Has(i)
    ensures |s| == 8 && forall k :: 0 <= k < 8 ==> t.Has(s[k])
  {
    var up, down := t.Up(i), t.Down(i);
    [t.Left(up), up, t.Right(up), t.Right(i), t.Right(down), down, t.Left(down), t.Left(i)]
  }

  function RingAt(t: Torus, d: seq<byte>, i: int): (r: seq<bool>)
    requires t.Valid() && |d| == t.n && t.Has(i)
    ensures |r| == 8
  {
    seq(8, k requires 0 <= k < 8 => d[Around(t, i)[k]] != 0)
  }

  /** A gap left of cell i is bridged. */
  ghost predicate JoinsLeft(t: Torus, d: seq<byte>, d': seq<byte>, i: int)
    requires t.Valid() && |d| == t.n && t.Has(i)
  {
    var l := t.Left(i);
    Bridged(d, d', i, l, t.Left(l), t.Left(t.Left(l)), 1)
  }

  /** A gap above cell i is bridged. */
  ghost predicate JoinsUp(t: Torus, d: seq<byte>, d': seq<byte>, i: int)
    requires t.Valid() && |d| == t.n && t.Has(i)
  {
    var u := t.Up(i);
    Bridged(d, d', i, u, t.Up(u), t.Up(t.Up(u)), 1)
  }

  ghost predicate JoinsSquare(t: Torus, d: seq<byte>, d': seq<byte>, i: int)
    requires t.Valid() && |d| == t.n && t.Has(i)
  {
    Squared(d, d', i, t.Left(i), t.Left(t.Up(i)), t.Up(i), 1)
  }

  ghost predicate FillsPinched(t: Torus, d: seq<byte>, d': seq<byte>, i: int)
    requires t.Valid() && |d| == t.n && t.Has(i)
  {
    d[i] == 0 && Pinched(RingAt(t, d, i)) && CornerFrom(d, d', i, Around(t, i))
  }

  ghost predicate StepAt(t: Torus, d: seq<byte>, d': seq<byte>, i: int)
    requires t.Valid() && |d| == t.n && t.Has(i)
  {
    JoinsLeft(t, d, d', i) || JoinsUp(t, d, d', i) || JoinsSquare(t, d, d', i) || FillsPinched(t, d, d', i)
  }

  /** A gap of one or two cells in a line or column is filled, or the free pair of a square filled on one
      diagonal, or an empty cell that wall passes on diagonally opposite sides. */
  ghost function ConnectStep(t: Torus): (r: (seq<byte>, seq<byte>) -> bool)
    requires t.Valid()
    ensures forall d, d' :: r(d, d') <==> |d| == t.n && exists i :: t.Has(i) && StepAt(t, d, d', i)
  {
    (d, d') => |d| == t.n && exists i :: t.Has(i) && StepAt(t, d, d', i)
  }

  /** The map d' comes from d by such steps, n of them in all. */
  ghost predicate Run(t: Torus, d: seq<byte>, d': seq<byte>, n: int)
    requires t.Valid()
  {
    Counted(d, d', n) && Connected(ConnectStep(t), d, d')
  }

  lemma RunNone(t: Torus, d: seq<byte>)
    requires t.Valid()
    ensures Run(t, d, d, 0)
  {
    CountedNone(d);
    Refl(ConnectStep(t), d);
  }

  lemma RunAdd(t: Torus, d: seq<byte>, d': seq<byte>, d'': seq<byte>, n: int, m: int)
    requires t.Valid() && Run(t, d, d', n) && Run(t, d', d'', m)
    ensures Run(t, d, d'', n + m)
  {
    hide Counted, Connected, ConnectStep;
    CountedAdd(d, d', d'', n, m);
    Trans(ConnectStep(t), d, d', d'');
  }

  lemma RunOne(t: Torus, d: seq<byte>, d': seq<byte>, i: int)
    requires t.Valid() && |d| == t.n && t.Has(i) && StepAt(t, d, d', i)
    ensures Run(t, d, d', 1)
  {
    hide Connected, Counted;
    StepCounts(t, d, d', i);
    Refl(ConnectStep(t), d);
    Extend(ConnectStep(t), d, d, d');
  }

  lemma StepCounts(t: Torus, d: seq<byte>, d': seq<byte>, i: int)
    requires t.Valid() && |d| == t.n && t.Has(i) && StepAt(t, d, d', i)
    ensures Counted(d, d', 1)
  {
    hide Counted, Filled, Pinched;
    if FillsPinched(t, d, d', i) {
      var k :| k in Around(t, i) && Filled(d, d', {i}, k);
      FilledCounted(d, d', {i}, k);
    } else {
      var l, u := t.Left(i), t.Up(i);
      if JoinsLeft(t, d, d', i) {
        FilledCounted(d, d', if d[t.Left(l)] != 0 then {l} else {l, t.Left(l)}, i);
      } else if JoinsUp(t, d, d', i) {
        FilledCounted(d, d', if d[t.Up(u)] != 0 then {u} else {u, t.Up(u)}, i);
      } else if Diagonal(d, i, l, t.Left(u), u) {
        FilledCounted(d, d', {l, u}, i);
      } else {
        FilledCounted(d, d', {i, t.Left(u)}, l);
      }
    }
  }

  // ---------------------------------------------------------------- the windows of the pointers

  lemma WindowAround(t: Torus, i: int)
    requires t.Valid() && BigEnough(t) && t.Has(i)
    ensures var w := WindowAt(t, i); t.Has(w.p5) && w.p5 == t.Left(t.Up(i)) && Around(t, w.p5) == Neighbours(w)
  {
  }

  lemma WindowRing(t: Torus, d: seq<byte>, i: int)
    requires t.Valid() && BigEnough(t) && t.Has(i) && |d| == t.n
    ensures var w := WindowAt(t, i); Inside(w, t.n) && RingAt(t, d, w.p5) == Ring(BitsOf(d, w))
  {
    hide Around, Neighbours, WindowAt, Inside;
    WindowApart(t, i);
    WindowAround(t, i);
    RingOfNeighbours(t, d, WindowAt(t, i));
  }

  lemma RingOfNeighbours(t: Torus, d: seq<byte>, w: Window)
    requires t.Valid() && |d| == t.n && Inside(w, t.n) && Around(t, w.p5) == Neighbours(w)
    ensures RingAt(t, d, w.p5) == Ring(BitsOf(d, w))
  {
    hide Around, Neighbours, Ring;
    forall k | 0 <= k < 8
      ensures RingAt(t, d, w.p5)[k] == Ring(BitsOf(d, w))[k]
    {
      RingEntry(d, w, k);
    }
  }

  lemma RingEntry(d: seq<byte>, w: Window, k: nat)
    requires Inside(w, |d|) && k < 8
    ensures |Neighbours(w)| == 8 && 0 <= Neighbours(w)[k] < |d|
    ensures Ring(BitsOf(d, w))[k] <==> d[Neighbours(w)[k]] != 0
  {
  }

  /** No rule applies at the window of cell i exactly if no step is possible there. */
  lemma SettledRules(t: Torus, d: seq<byte>, i: int)
    requires t.Valid() && BigEnough(t) && t.Has(i) && |d| == t.n && Inside(WindowAt(t, i), t.n)
    ensures Settled(t, d, i) <==>
            WideLeft(t, d, i) && WideUp(t, d, i) && NoDiagonal(t, d, i) && Unpinched(t, d, t.Left(t.Up(i)))
  {
    hide NoCorner, Pinched, RingAt, Ring;
    WindowRing(t, d, i);
    CornerRules(BitsOf(d, WindowAt(t, i)));
  }

  predicate WideLeft(t: Torus, d: seq<byte>, i: int)
    requires t.Valid() && |d| == t.n && t.Has(i)
  {
    var l := t.Left(i);
    !Narrow(d, i, l, t.Left(l), t.Left(t.Left(l)))
  }

  predicate WideUp(t: Torus, d: seq<byte>, i: int)
    requires t.Valid() && |d| == t.n && t.Has(i)
  {
    var u := t.Up(i);
    !Narrow(d, i, u, t.Up(u), t.Up(t.Up(u)))
  }

  /** The square of four cells whose lower right one is i is not filled on one diagonal only. */
  predicate NoDiagonal(t: Torus, d: seq<byte>, i: int)
    requires t.Valid() && |d| == t.n && t.Has(i)
  {
    var l, u := t.Left(i), t.Up(i);
    !Diagonal(d, i, l, t.Left(u), u) && !Diagonal(d, l, t.Left(u), u, i)
  }

  predicate Unpinched(t: Torus, d: seq<byte>, i: int)
    requires t.Valid() && |d| == t.n && t.Has(i)
  {
    d[i] != 0 || !Pinched(RingAt(t, d, i))
  }

  ghost predicate SettledUpTo(t: Torus, d: seq<byte>, k: int)
    requires t.Valid()
  {
    |d| == t.n && forall i :: 0 <= i < k && t.Has(i) ==> Inside(WindowAt(t, i), t.n) && Settled(t, d, i)
  }

  ghost predicate AllSettled(t: Torus, d: seq<byte>)
    requires t.Valid()
  {
    SettledUpTo(t, d, t.n)
  }

  /** In a settled map no gap in a line is just one or two cells wide, in either direction, no square of four
      cells is filled on one diagonal only, and no empty cell is pinched. */
  lemma SettledMeans(t: Torus, d: seq<byte>, i: int)
    requires |d| == t.n && t.Valid() && BigEnough(t) && AllSettled(t, d) && t.Has(i)
    ensures WideLeft(t, d, i) && WideUp(t, d, i) && NoDiagonal(t, d, i) && Unpinched(t, d, i)
  {
    hide Settled, WideLeft, WideUp, NoDiagonal, Unpinched;
    SettledRules(t, d, i);
    var j := t.Down(t.Right(i));
    BackToCorner(t, i);
    assert Settled(t, d, j);
    SettledRules(t, d, j);
  }

  lemma BackToCorner(t: Torus, i: int)
    requires t.Valid() && t.Has(i)
    ensures t.Left(t.Up(t.Down(t.Right(i)))) == i
  {
  }

  /** A map is settled exactly if it is at the end of its steps. */
  lemma SettledIsEnd(t: Torus, d: seq<byte>)
    requires |d| == t.n && t.Valid() && BigEnough(t)
    ensures AllSettled(t, d) <==> forall d' :: !ConnectStep(t)(d, d')
  {
    hide Settled, AllSettled, StepAt;
    if AllSettled(t, d) {
      forall d', i | t.Has(i)
        ensures !StepAt(t, d, d', i)
      {
        SettledMeans(t, d, i);
        NoStep(t, d, d', i);
      }
    } else {
      var i := NotSettled(t, d);
      var d', j := SomeStep(t, d, i);
      assert ConnectStep(t)(d, d');
    }
  }

  lemma NotSettled(t: Torus, d: seq<byte>) returns (i: int)
    requires |d| == t.n && t.Valid() && BigEnough(t) && !AllSettled(t, d)
    ensures t.Has(i) && Inside(WindowAt(t, i), t.n) && !Settled(t, d, i)
  {
    hide Settled, WindowAt, Inside;
    i :| t.Has(i) && !(Inside(WindowAt(t, i), t.n) && Settled(t, d, i));
    WindowApart(t, i);
  }

  lemma NoStep(t: Torus, d: seq<byte>, d': seq<byte>, i: int)
    requires |d| == t.n && t.Valid() && t.Has(i)
    requires WideLeft(t, d, i) && WideUp(t, d, i) && NoDiagonal(t, d, i) && Unpinched(t, d, i)
    ensures !StepAt(t, d, d', i)
  {
    hide Filled, Pinched;
  }

  lemma SomeStep(t: Torus, d: seq<byte>, i: int) returns (d': seq<byte>, j: int)
    requires |d| == t.n && t.Valid() && BigEnough(t) && t.Has(i) && Inside(WindowAt(t, i), t.n) && !Settled(t, d, i)
    ensures t.Has(j) && StepAt(t, d, d', j)
  {
    hide Settled, Pinched, WindowAt;
    SettledRules(t, d, i);
    var l, u := t.Left(i), t.Up(i);
    j := i;
    if !WideLeft(t, d, i) {
      d' := FillSet(d, if d[t.Left(l)] != 0 then {l} else {l, t.Left(l)}, i);
    } else if !WideUp(t, d, i) {
      d' := FillSet(d, if d[t.Up(u)] != 0 then {u} else {u, t.Up(u)}, i);
    } else if !NoDiagonal(t, d, i) {
      d' := if d[i] != 0 then FillSet(d, {l, u}, i) else FillSet(d, {i, t.Left(u)}, l);
    } else {
      j := t.Left(u);
      var k := SomeNeighbour(t, d, j);
      d' := FillSet(d, {j}, k);
    }
  }

  lemma AroundEight(t: Torus, i: int)
    requires t.Valid() && t.Has(i)
    ensures |Around(t, i)| == 8
  {
  }

  lemma SomeNeighbour(t: Torus, d: seq<byte>, i: int) returns (k: int)
    requires |d| == t.n && t.Valid() && t.Has(i) && Pinched(RingAt(t, d, i))
    ensures k in Around(t, i) && t.Has(k) && d[k] != 0
  {
    hide Around;
    var ring := RingAt(t, d, i);
    var c :| 0 <= c < 4 && PinchedAt(ring, c);
    AroundEight(t, i);
    k := Around(t, i)[2 * c];
  }

  ghost function FillSet(d: seq<byte>, gap: set<int>, k: int): (d': seq<byte>)
    requires 0 <= k < |d| && d[k] != 0 && gap != {} && forall c :: c in gap ==> 0 <= c < |d| && d[c] == 0
    ensures Filled(d, d', gap, k)
  {
    seq(|d|, c requires 0 <= c < |d| => if c in gap then d[k] else d[c])
  }
}

module ConnectMap {
  import opened HelixMap
  import opened Reach
  import opened WildMap
  import opened ConnectRules
  import opened ConnectSteps

  /** Give the empty cell c the value of the filled cell k. */
  method Fill(wm: WildMap, c: int, k: int)
    requires wm.Valid() && 0 <= c < wm.data.Length && 0 <= k < wm.data.Length && wm.data[c] == 0 && wm.data[k] != 0
    modifies wm.data
    ensures Filled(old(wm.data[..]), wm.data[..], {c}, k)
  {
    wm.data[c] := wm.data[k];
  }

  /** Give two empty cells the value of the filled cell k. */
  method FillBoth(wm: WildMap, c: int, e: int, k: int)
    requires wm.Valid() && 0 <= c < wm.data.Length && 0 <= e < wm.data.Length && 0 <= k < wm.data.Length && c != e
    requires wm.data[c] == 0 && wm.data[e] == 0 && wm.data[k] != 0
    modifies wm.data
    ensures Filled(old(wm.data[..]), wm.data[..], {c, e}, k)
  {
    wm.data[c] := wm.data[k];
    wm.data[e] := wm.data[k];
  }

  /** The rules for gaps of one or two cells left of p0. */
  method JoinLeft(wm: WildMap, w: Window) returns (n: int)
    requires wm.Valid() && Inside(w, wm.t.n) && Apart(w) && wm.data[w.p0] != 0
    modifies wm.data
    ensures Bridged(old(wm.data[..]), wm.data[..], w.p0, w.p1, w.p2, w.p3, n)
  {
    hide Filled;
    n := 0;
    if wm.data[w.p1] == 0 {
      if wm.data[w.p2] != 0 {
        Fill(wm, w.p1, w.p0);
        n := n + 1;
      } else if wm.data[w.p3] != 0 {
        FillBoth(wm, w.p1, w.p2, w.p0);
        n := n + 1;
      }
    }
  }

  /** The rules for gaps of one or two cells above p0. */
  method JoinUp(wm: WildMap, w: Window) returns (n: int)
    requires wm.Valid() && Inside(w, wm.t.n) && Apart(w) && wm.data[w.p0] != 0
    modifies wm.data
    ensures Bridged(old(wm.data[..]), wm.data[..], w.p0, w.p4, w.p7, w.pa, n)
  {
    hide Filled;
    n := 0;
    if wm.data[w.p4] == 0 {
      if wm.data[w.p7] != 0 {
        Fill(wm, w.p4, w.p0);
        n := n + 1;
      } else if wm.data[w.pa] != 0 {
        FillBoth(wm, w.p4, w.p7, w.p0);
        n := n + 1;
      }
    }
  }

  /** First the gap to the left, then the one above, then the square of p0, p1, p5 and p4. */
  ghost predicate GapsJoined(d: seq<byte>, d1: seq<byte>, d2: seq<byte>, d': seq<byte>, w: Window, n1: int, n2: int,
                             n3: int)
    requires |d| == |d1| == |d2| && Inside(w, |d|)
  {
    && Bridged(d, d1, w.p0, w.p1, w.p2, w.p3, n1) && Bridged(d1, d2, w.p0, w.p4, w.p7, w.pa, n2)
    && Squared(d2, d', w.p0, w.p1, w.p5, w.p4, n3)
  }

  /** The first half of a step: gaps, and the diagonals of the square of p0, p1, p4 and p5. */
  method JoinGaps(wm: WildMap, w: Window)
    returns (n: int, ghost d1: seq<byte>, ghost d2: seq<byte>, ghost n1: int, ghost n2: int)
    requires wm.Valid() && Inside(w, wm.t.n) && Apart(w)
    modifies wm.data
    ensures |d1| == |d2| == wm.data.Length
    ensures GapsJoined(old(wm.data[..]), d1, d2, wm.data[..], w, n1, n2, n - n1 - n2)
    ensures wm.data[w.p0] != 0 || wm.data[w.p5] != 0 || wm.data[w.p1] == 0 || wm.data[w.p4] == 0
  {
    n, n1, n2 := 0, 0, 0;
    d1, d2 := wm.data[..], wm.data[..];
    if wm.data[w.p0] != 0 {
      var nLeft := JoinLeft(wm, w);
      d1, n1 := wm.data[..], nLeft;
      KeepsFilled(old(wm.data[..]), d1, w.p0, w.p1, w.p2, w.p3, n1);
      var nUp := JoinUp(wm, w);
      d2, n2 := wm.data[..], nUp;
      KeepsFilled(d1, d2, w.p0, w.p4, w.p7, w.pa, n2);
      n := nLeft + nUp;
      if wm.data[w.p5] != 0 {
        if wm.data[w.p1] == 0 && wm.data[w.p4] == 0 {
          FillBoth(wm, w.p1, w.p4, w.p0);
          n := n + 1;
        }
      }
    } else {
      if wm.data[w.p5] == 0 && wm.data[w.p1] != 0 && wm.data[w.p4] != 0 {
        FillBoth(wm, w.p5, w.p0, w.p1);
        n := n + 1;
      }
    }
  }

  lemma KeepsFilled(d: seq<byte>, d': seq<byte>, a: int, b: int, c: int, e: int, n: int)
    requires 0 <= a < |d| && 0 <= b < |d| && 0 <= c < |d| && 0 <= e < |d| && |d'| == |d|
    requires Bridged(d, d', a, b, c, e, n) && d[a] != 0
    ensures d'[a] == d[a]
  {
  }

  lemma AmongNeighbours(w: Window, k: int)
    requires || k == w.p0 || k == w.p1 || k == w.p2 || k == w.p4 || k == w.p6 || k == w.p7 || k == w.p8 || k == w.p9
    ensures k in Neighbours(w)
  {
    var s := Neighbours(w);
    assert s[0] == w.p9 && s[1] == w.p8 && s[2] == w.p7 && s[3] == w.p4;
    assert s[4] == w.p0 && s[5] == w.p1 && s[6] == w.p2 && s[7] == w.p6;
  }

  /** The second half of a step: when to fill the corner cell p5, and from which cell. */
  method FillCorner(wm: WildMap, w: Window) returns (n: int)
    requires wm.Valid() && Inside(w, wm.t.n) && Apart(w)
    requires wm.data[w.p0] != 0 || wm.data[w.p5] != 0 || wm.data[w.p1] == 0 || wm.data[w.p4] == 0
    modifies wm.data
    ensures Cornered(old(wm.data[..]), wm.data[..], w, n)
  {
    hide Pinched, Filled, Ring, Neighbours;
    var d := wm.data;
    n := 0;
    if d[w.p5] == 0 {
      var b := Bits(d[w.p0] != 0, d[w.p1] != 0, d[w.p2] != 0, d[w.p3] != 0, d[w.p4] != 0, d[w.p5] != 0,
                    d[w.p6] != 0, d[w.p7] != 0, d[w.p8] != 0, d[w.p9] != 0, d[w.pa] != 0);
      var k := -1;
      if (b.b0 || (b.b1 && b.b4)) && b.b9 {
        k := w.p0;
      } else if b.b6 && b.b8 && b.b0 {
        k := w.p0;
      } else if b.b2 && (b.b7 || (b.b4 && b.b8)) {
        k := w.p2;
      } else if b.b7 && b.b1 && b.b6 {
        k := w.p7;
      } else if !b.b0 && !b.b1 && b.b2 && !b.b4 && b.b6 && b.b7 && b.b8 && b.b9 {
        k := w.p9;
      } else if b.b0 && !b.b1 && !b.b2 && b.b4 && !b.b6 && b.b7 && b.b8 && b.b9 {
        k := w.p7;
      } else if b.b0 && b.b1 && b.b2 && b.b4 && !b.b6 && b.b7 && !b.b8 && !b.b9 {
        k := w.p0;
      } else if b.b0 && b.b1 && b.b2 && !b.b4 && b.b6 && !b.b7 && !b.b8 && b.b9 {
        k := w.p0;
      } else if b.b0 && !b.b1 && !b.b2 && !b.b4 && !b.b6 && !b.b7 && b.b8 && !b.b9 {
        k := w.p8;
      } else if !b.b0 && !b.b1 && b.b2 && !b.b4 && !b.b6 && !b.b7 && b.b8 && !b.b9 {
        k := w.p8;
      } else if b.b0 && !b.b1 && !b.b2 && !b.b4 && b.b6 && !b.b7 && !b.b8 && !b.b9 {
        k := w.p6;
      } else if !b.b0 && !b.b1 && !b.b2 && !b.b4 && b.b6 && b.b7 && !b.b8 && !b.b9 {
        k := w.p6;
      } else if !b.b0 && b.b1 && !b.b2 && !b.b4 && !b.b6 && !b.b7 && !b.b8 && b.b9 {
        k := w.p1;
      } else if !b.b0 && b.b1 && !b.b2 && !b.b4 && !b.b6 && b.b7 && !b.b8 && !b.b9 {
        k := w.p1;
      } else if !b.b0 && !b.b1 && !b.b2 && b.b4 && !b.b6 && !b.b7 && !b.b8 && b.b9 {
        k := w.p4;
      } else if !b.b0 && !b.b1 && b.b2 && b.b4 && !b.b6 && !b.b7 && !b.b8 && !b.b9 {
        k := w.p4;
      }
      CornerRules(b);
      if k >= 0 {
        AmongNeighbours(w, k);
        Fill(wm, w.p5, k);
        n := n + 1;
      }
    }
  }

  /** The window one cell further on, as the pointers are moved. */
  function Moved(w: Window, n: int): Window {
    var p4, p7, pa := w.p4 + 1, w.p7 + 1, w.pa + 1;
    Window(w.p0 + 1, w.p0, w.p1, w.p2,
           if p4 >= n then 0 else p4, w.p4, w.p5,
           if p7 >= n then 0 else p7, w.p7, w.p8, if pa >= n then 0 else pa)
  }

  /** Moving the pointers leads to the window of the next cell. */
  lemma MovedIsNext(t: Torus, i: int)
    requires t.Valid() && BigEnough(t) && t.Has(i) && i + 1 < t.n
    ensures Moved(WindowAt(t, i), t.n) == WindowAt(t, i + 1)
  {
  }

  /** Where the pointers start. */
  lemma StartWindow(t: Torus)
    requires t.Valid() && BigEnough(t)
    ensures var n, lw := t.n, t.lw;
            WindowAt(t, 0) == Window(0, n - 1, n - 2, n - 3, n - lw, n - lw - 1, n - lw - 2,
                                     n - lw - lw, n - lw - lw - 1, n - lw - lw - 2, n - lw - lw - lw)
  {
  }

  lemma BridgeLeftRuns(t: Torus, d: seq<byte>, d': seq<byte>, i: int, n: int)
    requires t.Valid() && BigEnough(t) && t.Has(i) && |d| == t.n && Inside(WindowAt(t, i), t.n)
    requires var w := WindowAt(t, i); Bridged(d, d', w.p0, w.p1, w.p2, w.p3, n)
    ensures Run(t, d, d', n) && (n == 0 <==> WideLeft(t, d, i))
  {
    hide Run, Filled;
    RunNone(t, d);
    if n != 0 {
      assert JoinsLeft(t, d, d', i);
      RunOne(t, d, d', i);
    }
  }

  lemma BridgeUpRuns(t: Torus, d: seq<byte>, d': seq<byte>, i: int, n: int)
    requires t.Valid() && BigEnough(t) && t.Has(i) && |d| == t.n && Inside(WindowAt(t, i), t.n)
    requires var w := WindowAt(t, i); Bridged(d, d', w.p0, w.p4, w.p7, w.pa, n)
    ensures Run(t, d, d', n) && (n == 0 <==> WideUp(t, d, i))
  {
    hide Run, Filled;
    RunNone(t, d);
    if n != 0 {
      assert JoinsUp(t, d, d', i);
      RunOne(t, d, d', i);
    }
  }

  lemma SquareRuns(t: Torus, d: seq<byte>, d': seq<byte>, i: int, n: int)
    requires t.Valid() && BigEnough(t) && t.Has(i) && |d| == t.n && Inside(WindowAt(t, i), t.n)
    requires var w := WindowAt(t, i); Squared(d, d', w.p0, w.p1, w.p5, w.p4, n)
    ensures Run(t, d, d', n) && (n == 0 <==> NoDiagonal(t, d, i))
  {
    hide Run, Filled;
    RunNone(t, d);
    if n != 0 {
      assert JoinsSquare(t, d, d', i);
      RunOne(t, d, d', i);
    }
  }

  lemma CornerRuns(t: Torus, d: seq<byte>, d': seq<byte>, i: int, n: int)
    requires t.Valid() && BigEnough(t) && t.Has(i) && |d| == t.n && Inside(WindowAt(t, i), t.n)
    requires Cornered(d, d', WindowAt(t, i), n)
    ensures Run(t, d, d', n) && (n == 0 <==> Unpinched(t, d, t.Left(t.Up(i))))
  {
    hide Run, Filled, Pinched, WindowAt, Neighbours, Around, RingAt, Ring, CornerFrom;
    RunNone(t, d);
    WindowRing(t, d, i);
    WindowAround(t, i);
    if n != 0 {
      assert FillsPinched(t, d, d', t.Left(t.Up(i)));
      RunOne(t, d, d', t.Left(t.Up(i)));
    }
  }

  /** One turn of the loop over the map: it fills by steps only, and none exactly if the cell is settled. */
  lemma TurnRuns(t: Torus, d: seq<byte>, d1: seq<byte>, d2: seq<byte>, d3: seq<byte>, d': seq<byte>, i: int, n1: int,
                 n2: int, n3: int, n4: int)
    requires t.Valid() && BigEnough(t) && t.Has(i) && |d| == |d1| == |d2| == |d3| == t.n
    requires Inside(WindowAt(t, i), t.n) && GapsJoined(d, d1, d2, d3, WindowAt(t, i), n1, n2, n3)
    requires Cornered(d3, d', WindowAt(t, i), n4)
    ensures Run(t, d, d', n1 + n2 + n3 + n4) && (n1 + n2 + n3 + n4 == 0 <==> Settled(t, d, i))
  {
    hide Connected, ConnectStep, Fills, Empty, Bridged, Squared, Cornered, WindowAt, WideLeft, WideUp, NoDiagonal,
         Unpinched, Settled;
    BridgeLeftRuns(t, d, d1, i, n1);
    BridgeUpRuns(t, d1, d2, i, n2);
    SquareRuns(t, d2, d3, i, n3);
    CornerRuns(t, d3, d', i, n4);
    RunAdd(t, d, d1, d2, n1, n2);
    RunAdd(t, d, d2, d3, n1 + n2, n3);
    RunAdd(t, d, d3, d', n1 + n2 + n3, n4);
    SettledRules(t, d, i);
  }

  /** One pass over the map. */
  method ConnectPass(wm: WildMap) returns (n: int)
    requires wm.Valid() && BigEnough(wm.t)
    modifies wm.data
    ensures Run(wm.t, old(wm.data[..]), wm.data[..], n)
    ensures n == 0 <==> AllSettled(wm.t, old(wm.data[..]))
  {
    hide Run, Connected, GapsJoined, Cornered, WindowAt, Apart, Inside, Settled;
    ghost var d := wm.data[..];
    var size, lw := wm.t.n, wm.t.lw;
    n := 0;
    var w := Window(0, size - 1, size - 2, size - 3, size - lw, size - lw - 1, size - lw - 2,
                    size - lw - lw, size - lw - lw - 1, size - lw - lw - 2, size - lw - lw - lw);
    StartWindow(wm.t);
    RunNone(wm.t, d);
    while w.p0 < size
      invariant 0 <= w.p0 <= size && (w.p0 < size ==> w == WindowAt(wm.t, w.p0))
      invariant Run(wm.t, d, wm.data[..], n)
      invariant n == 0 <==> SettledUpTo(wm.t, d, w.p0)
    {
      WindowApart(wm.t, w.p0);
      ghost var d0 := wm.data[..];
      ghost var d1, d2, k1, k2;
      var n1;
      n1, d1, d2, k1, k2 := JoinGaps(wm, w);
      ghost var d3 := wm.data[..];
      var n2 := FillCorner(wm, w);
      TurnRuns(wm.t, d0, d1, d2, d3, wm.data[..], w.p0, k1, k2, n1 - k1 - k2, n2);
      PassGoesOn(wm.t, d, d0, wm.data[..], w.p0, n, n1 + n2);
      n := n + n1 + n2;
      if w.p0 + 1 < size {
        MovedIsNext(wm.t, w.p0);
      }
      w := Moved(w, size);
    }
  }

  lemma PassGoesOn(t: Torus, d: seq<byte>, d0: seq<byte>, d': seq<byte>, i: int, n: int, n': int)
    requires t.Valid() && t.Has(i) && |d| == |d0| == t.n && Inside(WindowAt(t, i), t.n)
    requires Run(t, d, d0, n) && Run(t, d0, d', n') && (n' == 0 <==> Settled(t, d0, i))
    requires n == 0 <==> SettledUpTo(t, d, i)
    ensures Run(t, d, d', n + n') && (n + n' == 0 <==> SettledUpTo(t, d, i + 1))
  {
    hide Connected, ConnectStep, Fills, Empty, WindowAt, Settled, Inside;
    RunAdd(t, d, d0, d', n, n');
    if SettledUpTo(t, d, i + 1) {
      assert SettledUpTo(t, d, i) && Settled(t, d, i);
    }
  }

  /** Connect_map: it ends, by such steps leads to a map at which no step is possible, and changes nothing if
      none was possible before. */
  method ConnectMap(wm: WildMap)
    requires wm.Valid() && BigEnough(wm.t)
    modifies wm.data
    ensures Connected(ConnectStep(wm.t), old(wm.data[..]), wm.data[..])
    ensures Fills(old(wm.data[..]), wm.data[..])
    ensures AllSettled(wm.t, wm.data[..])
    ensures AllSettled(wm.t, old(wm.data[..])) ==> wm.data[..] == old(wm.data[..])
  {
    hide Fills, Empty, AllSettled, Connected, ConnectStep;
    ghost var d0 := wm.data[..];
    RunNone(wm.t, d0);
    var n := 1;
    ghost var total := 0;
    while n > 0
      invariant 0 <= n && Run(wm.t, d0, wm.data[..], total)
      invariant n == 0 ==> AllSettled(wm.t, wm.data[..])
      invariant AllSettled(wm.t, d0) ==> wm.data[..] == d0
      decreases Empty(wm.data[..]), n
    {
      ghost var d := wm.data[..];
      n := ConnectPass(wm);
      RunAdd(wm.t, d0, d, wm.data[..], total, n);
      total := total + n;
      EmptySame(d, wm.data[..], n);
    }
  }

  lemma EmptySame(d: seq<byte>, d': seq<byte>, n: int)
    requires Counted(d, d', n)
    ensures n == 0 ==> Empty(d') == Empty(d)
  {
  }
}
