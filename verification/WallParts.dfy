/** Splitting the wall into parts: poly_partition of mapconvert.py. */
module WallParts {
  import opened Basics
  import opened BlockMap
  import opened Reach

  /** The table `ways`: the sides of a block that its wall reaches. */
  function Ways(b: char): (r: seq<Dir>)
    ensures forall d :: d in r ==> d in {0, 2, 4, 6}
  {
    if Filled(b) then [0, 2, 4, 6]
    else if b == REC_UR then [0, 2]
    else if b == REC_UL then [2, 4]
    else if b == REC_DL then [4, 6]
    else if b == REC_DR then [6, 0]
    else []
  }

  /** The point of a unit block, y down, at place s along its side d and at depth t from it. */
  function SideX(d: Dir, s: real, t: real): real {
    if d == 0 then 1.0 - t else if d == 4 then t else s
  }

  function SideY(d: Dir, s: real, t: real): real {
    if d == 2 then t else if d == 6 then 1.0 - t else s
  }

  /** All points of block b that are closer to side d than to the other sides are solid. */
  ghost predicate SolidSide(b: char, d: Dir) {
    forall s: real, t: real :: 0.0 < t < s && t < 1.0 - s ==> SolidAt(b, SideX(d, s, t), SideY(d, s, t))
  }

  /** What the table means, for each such point. */
  lemma SidePoint(b: char, d: Dir, s: real, t: real)
    requires d in {0, 2, 4, 6} && 0.0 < t < s && t < 1.0 - s
    ensures SolidAt(b, SideX(d, s, t), SideY(d, s, t)) <==> d in Ways(b)
  {
  }

  /** The table lists exactly the sides at which the block is solid. */
  lemma WaysSolid(b: char, d: Dir)
    ensures d in Ways(b) <==> d in {0, 2, 4, 6} && SolidSide(b, d)
  {
    hide SideX, SideY, SolidAt, Ways;
    if d in {0, 2, 4, 6} {
      forall s: real, t: real | 0.0 < t < s && t < 1.0 - s
        ensures SolidAt(b, SideX(d, s, t), SideY(d, s, t)) <==> d in Ways(b)
      {
        SidePoint(b, d, s, t);
      }
      SidePoint(b, d, 0.5, 0.25);
    }
  }

  /** The wall of cell c runs on into its neighbour in direction d: on both sides of their common side the
      blocks are solid. */
  ghost predicate Joined(m: Map, c: Cell, d: Dir)
    requires m.Valid()
  {
    m.Has(c) && d in {0, 2, 4, 6} && SolidSide(m.At(c), d) && SolidSide(m.At(m.Go(c, d)), (d + 4) % 8)
  }

  lemma JoinedWays(m: Map, c: Cell, d: Dir)
    requires m.Valid()
    ensures Joined(m, c, d) <==> m.Has(c) && d in Ways(m.At(c)) && (d + 4) % 8 in Ways(m.At(m.Go(c, d)))
  {
    hide SolidSide, Ways, Map.Go;
    if m.Has(c) {
      WaysSolid(m.At(c), d);
      WaysSolid(m.At(m.Go(c, d)), (d + 4) % 8);
    }
  }

  ghost predicate JoinedTo(m: Map, a: Cell, b: Cell)
    requires m.Valid()
  {
    exists d: Dir :: Joined(m, a, d) && b == m.Go(a, d)
  }

  ghost function JoinRel(m: Map): (r: (Cell, Cell) -> bool)
    requires m.Valid()
    ensures forall a, b :: r(a, b) <==> JoinedTo(m, a, b)
  {
    (a, b) => JoinedTo(m, a, b)
  }

  /** A position of the unwrapped plane. */
  datatype Pos = Pos(x: int, y: int)

  function Step(p: Pos, d: Dir): Pos {
    Pos(p.x + Dirs(d).dx, p.y + Dirs(d).dy)
  }

  ghost predicate StepsTo(m: Map, p: Pos, q: Pos)
    requires m.Valid()
  {
    exists d: Dir :: Joined(m, m.Wrap(p.x, p.y), d) && q == Step(p, d)
  }

  ghost function StepRel(m: Map): (r: (Pos, Pos) -> bool)
    requires m.Valid()
    ensures forall p, q :: r(p, q) <==> StepsTo(m, p, q)
  {
    (p, q) => StepsTo(m, p, q)
  }

  /** What poly_partition stores for a wall cell: its part, and where it lies in the plane when the
      part is unrolled from its first cell. */
  datatype Label = Label(part: nat, ux: int, uy: int)

  ghost function Labels(m: Map, parts: array2<Option<Label>>): (r: map<Cell, Label>)
    requires parts.Length0 == m.height && parts.Length1 == m.width
    reads parts
  {
    map c | c in m.Cells() && parts[c.y, c.x].Some? :: parts[c.y, c.x].value
  }

  /** A label tells the truth: its coordinates wrap to its cell, and a unit-step path through joined
      wall leads there from the first cell of its part, in the unwrapped plane. */
  ghost predicate Truthful(m: Map, seeds: seq<Cell>, c: Cell, l: Label)
    requires m.Valid()
  {
    && l.part < |seeds|
    && m.Wrap(l.ux, l.uy) == c
    && Connected(StepRel(m), Pos(seeds[l.part].x, seeds[l.part].y), Pos(l.ux, l.uy))
  }

  /** Every joined neighbour of c is labelled with the same part. */
  ghost predicate ClosedAt(m: Map, labels: map<Cell, Label>, c: Cell)
    requires m.Valid() && c in labels
  {
    forall d: Dir :: Joined(m, c, d) ==> m.Go(c, d) in labels && labels[m.Go(c, d)].part == labels[c].part
  }

  ghost predicate SeedsOk(m: Map, labels: map<Cell, Label>, seeds: seq<Cell>)
    requires m.Valid()
  {
    forall k :: 0 <= k < |seeds| ==> seeds[k] in labels && labels[seeds[k]] == Label(k, seeds[k].x, seeds[k].y)
  }

  /** The result of poly_partition: exactly the wall cells are labelled, truthfully, each part has
      its first cell, and joined cells are in the same part. */
  ghost predicate IsPartition(m: Map, labels: map<Cell, Label>, seeds: seq<Cell>)
    requires m.Valid()
  {
    && (forall c :: c in labels <==> m.Has(c) && Wall(m.At(c)))
    && SeedsOk(m, labels, seeds)
    && (forall c :: c in labels ==> Truthful(m, seeds, c, labels[c]) && ClosedAt(m, labels, c))
  }

  lemma JoinedBack(m: Map, c: Cell, d: Dir)
    requires m.Valid() && Joined(m, c, d)
    ensures m.Go(m.Go(c, d), (d + 4) % 8) == c
    ensures Joined(m, m.Go(c, d), (d + 4) % 8)
  {
    hide SolidSide, Map.Go;
    GoBack(m, c, d);
  }

  lemma JoinSymmetric(m: Map)
    requires m.Valid()
    ensures Symmetric(JoinRel(m))
  {
    hide Joined;
    forall a, b | JoinRel(m)(a, b)
      ensures JoinRel(m)(b, a)
    {
      var d: Dir :| Joined(m, a, d) && b == m.Go(a, d);
      JoinedBack(m, a, d);
    }
  }

  lemma StepWraps(m: Map, p: Pos, d: Dir)
    requires m.Valid()
    ensures m.Wrap(Step(p, d).x, Step(p, d).y) == m.Go(m.Wrap(p.x, p.y), d)
  {
    ModAdd(p.x, Dirs(d).dx, m.width);
    ModAdd(p.y, Dirs(d).dy, m.height);
  }

  /** A path of the unwrapped plane projects to a path of the torus. */
  lemma Project(m: Map, p: Pos, q: Pos)
    requires m.Valid() && Connected(StepRel(m), p, q)
    ensures Connected(JoinRel(m), m.Wrap(p.x, p.y), m.Wrap(q.x, q.y))
  {
    hide Joined;
    var a := m.Wrap(p.x, p.y);
    var s := iset r: Pos | Connected(JoinRel(m), a, m.Wrap(r.x, r.y));
    forall u, v | u in s && StepRel(m)(u, v)
      ensures v in s
    {
      var d: Dir :| Joined(m, m.Wrap(u.x, u.y), d) && v == Step(u, d);
      StepWraps(m, u, d);
      Extend(JoinRel(m), a, m.Wrap(u.x, u.y), m.Wrap(v.x, v.y));
    }
    Refl(JoinRel(m), a);
    Stays(StepRel(m), s, p, q);
  }

  /** Main result about poly_partition: two wall cells are in the same part exactly when joined wall
      connects them. */
  lemma PartsAreComponents(m: Map, labels: map<Cell, Label>, seeds: seq<Cell>, a: Cell, b: Cell)
    requires m.Valid() && IsPartition(m, labels, seeds)
    requires a in labels && b in labels
    ensures labels[a].part == labels[b].part <==> Connected(JoinRel(m), a, b)
  {
    hide Joined;
    var r := JoinRel(m);
    JoinSymmetric(m);
    if labels[a].part == labels[b].part {
      var s := seeds[labels[a].part];
      WrapHome(m, s);
      Project(m, Pos(s.x, s.y), Pos(labels[a].ux, labels[a].uy));
      Project(m, Pos(s.x, s.y), Pos(labels[b].ux, labels[b].uy));
      Sym(r, s, a);
      Trans(r, a, s, b);
    }
    if Connected(r, a, b) {
      var s := iset c | c in labels && labels[c].part == labels[a].part;
      forall u, v | u in s && r(u, v)
        ensures v in s
      {
        assert ClosedAt(m, labels, u);
      }
      Stays(r, s, a, b);
    }
  }

  // ---------------------------------------------------------------- the algorithm

  /** Cell c still waits to be expanded: it belongs to the newest part and its position is on the stack. */
  predicate Waiting(labels: map<Cell, Label>, part: int, left: seq<Pos>, c: Cell) {
    c in labels && labels[c].part == part && Pos(labels[c].ux, labels[c].uy) in left
  }

  /** The invariant of the stack loop: labels are true, and only waiting cells (or the cell `open`
      that is being expanded) may have an unlabelled neighbour. */
  ghost predicate Growing(m: Map, labels: map<Cell, Label>, seeds: seq<Cell>, left: seq<Pos>, open: Option<Cell>)
    requires m.Valid()
  {
    && SeedsOk(m, labels, seeds)
    && (forall c :: c in labels ==> m.Has(c) && Wall(m.At(c)) && Truthful(m, seeds, c, labels[c]))
    && (forall c :: c in labels ==> ClosedAt(m, labels, c) || Waiting(labels, |seeds| - 1, left, c) || Some(c) == open)
    && (forall p :: p in left ==> Waiting(labels, |seeds| - 1, [p], m.Wrap(p.x, p.y)))
    && (open.Some? ==> open.value in labels && labels[open.value].part == |seeds| - 1)
  }

  lemma WallIfJoined(m: Map, c: Cell, d: Dir)
    requires m.Valid() && Joined(m, c, d)
    ensures Wall(m.At(c)) && Wall(m.At(m.Go(c, d)))
  {
    hide Joined, Map.Go;
    JoinedWays(m, c, d);
  }

  /** The new label for a joined neighbour of a truthfully labelled cell is true. */
  lemma GrowTruth(m: Map, seeds: seq<Cell>, p: Pos, d: Dir)
    requires m.Valid() && 0 < |seeds|
    requires Joined(m, m.Wrap(p.x, p.y), d)
    requires Truthful(m, seeds, m.Wrap(p.x, p.y), Label(|seeds| - 1, p.x, p.y))
    ensures var q := Step(p, d); Truthful(m, seeds, m.Go(m.Wrap(p.x, p.y), d), Label(|seeds| - 1, q.x, q.y))
  {
    var s := seeds[|seeds| - 1];
    hide Map.Go, Map.Wrap, Joined, Dirs;
    StepWraps(m, p, d);
    Extend(StepRel(m), Pos(s.x, s.y), p, Step(p, d));
  }

  /** Adding a stacked cell leaves every other cell closed or waiting as it was. */
  lemma GrowWaiting(m: Map, labels: map<Cell, Label>, part: int, left: seq<Pos>, open: Option<Cell>,
                    n: Cell, l: Label)
    requires m.Valid() && n !in labels && l.part == part
    requires forall e :: e in labels ==> ClosedAt(m, labels, e) || Waiting(labels, part, left, e) || Some(e) == open
    ensures forall e :: e in labels[n := l] ==>
              || ClosedAt(m, labels[n := l], e)
              || Waiting(labels[n := l], part, left + [Pos(l.ux, l.uy)], e)
              || Some(e) == open
  {
    var longer := labels[n := l];
    hide ClosedAt;
    forall e | e in longer
      ensures ClosedAt(m, longer, e) || Waiting(longer, part, left + [Pos(l.ux, l.uy)], e) || Some(e) == open
    {
      if e in labels && ClosedAt(m, labels, e) {
        StillClosed(m, labels, longer, e);
      }
    }
  }

  /** Labelling a fresh neighbour of the open cell. */
  lemma GrowOne(m: Map, labels: map<Cell, Label>, seeds: seq<Cell>, left: seq<Pos>, p: Pos, d: Dir)
    requires m.Valid() && Growing(m, labels, seeds, left, Some(m.Wrap(p.x, p.y)))
    requires var c := m.Wrap(p.x, p.y);
             labels[c] == Label(|seeds| - 1, p.x, p.y) && Joined(m, c, d) && m.Go(c, d) !in labels
    ensures var c, q := m.Wrap(p.x, p.y), Step(p, d);
            && m.Wrap(q.x, q.y) == m.Go(c, d)
            && Growing(m, labels[m.Go(c, d) := Label(|seeds| - 1, q.x, q.y)], seeds, left + [q], Some(c))
  {
    var c, q := m.Wrap(p.x, p.y), Step(p, d);
    var n := m.Go(c, d);
    var l := Label(|seeds| - 1, q.x, q.y);
    hide Map.Go, Map.Wrap, ClosedAt, Joined, Truthful, Wall;
    StepWraps(m, p, d);
    WallIfJoined(m, c, d);
    assert Truthful(m, seeds, c, labels[c]);
    GrowTruth(m, seeds, p, d);
    GrowWaiting(m, labels, |seeds| - 1, left, Some(c), n, l);
    forall r | r in left + [q]
      ensures Waiting(labels[n := l], |seeds| - 1, [r], m.Wrap(r.x, r.y))
    {
      if r in left {
        assert Waiting(labels, |seeds| - 1, [r], m.Wrap(r.x, r.y));
      }
    }
  }

  /** A neighbour of the open cell that is labelled already is in the same part. */
  lemma SamePart(m: Map, labels: map<Cell, Label>, seeds: seq<Cell>, left: seq<Pos>, c: Cell, d: Dir)
    requires m.Valid() && Growing(m, labels, seeds, left, Some(c))
    requires Joined(m, c, d) && m.Go(c, d) in labels
    ensures labels[m.Go(c, d)].part == labels[c].part
  {
    hide Joined, Map.Go;
    JoinedBack(m, c, d);
    var n := m.Go(c, d);
    if ClosedAt(m, labels, n) {
      assert Joined(m, n, (d + 4) % 8);
    }
  }

  /** All joined neighbours of the open cell in the first n of its ways are labelled. */
  ghost predicate Handled(m: Map, labels: map<Cell, Label>, c: Cell, n: nat)
    requires m.Valid() && m.Has(c) && n <= |Ways(m.At(c))|
  {
    forall d: Dir :: d in Ways(m.At(c))[..n] && Joined(m, c, d) ==> m.Go(c, d) in labels
  }

  /** Once all ways are handled the open cell needs no exemption any more. */
  lemma Settled(m: Map, labels: map<Cell, Label>, seeds: seq<Cell>, left: seq<Pos>, c: Cell)
    requires m.Valid() && Growing(m, labels, seeds, left, Some(c))
    requires Handled(m, labels, c, |Ways(m.At(c))|)
    ensures Growing(m, labels, seeds, left, None)
  {
    hide Joined, Map.Go, Ways;
    forall d: Dir | Joined(m, c, d)
      ensures m.Go(c, d) in labels && labels[m.Go(c, d)].part == labels[c].part
    {
      JoinedWays(m, c, d);
      SamePart(m, labels, seeds, left, c, d);
    }
    assert ClosedAt(m, labels, c);
  }

  /** One neighbour of p: if its wall joins and it is unlabelled, label and stack it. */
  method Visit(m: Map, parts: array2<Option<Label>>, partnum: nat, p: Pos, d: Dir, left0: seq<Pos>,
               ghost seeds: seq<Cell>)
    returns (left: seq<Pos>)
    requires m.Valid() && parts.Length0 == m.height && parts.Length1 == m.width && partnum == |seeds| - 1
    requires d in Ways(m.At(m.Wrap(p.x, p.y)))
    requires Growing(m, Labels(m, parts), seeds, left0, Some(m.Wrap(p.x, p.y)))
    requires Labels(m, parts)[m.Wrap(p.x, p.y)] == Label(partnum, p.x, p.y)
    modifies parts
    ensures Growing(m, Labels(m, parts), seeds, left, Some(m.Wrap(p.x, p.y)))
    ensures Joined(m, m.Wrap(p.x, p.y), d) ==> m.Go(m.Wrap(p.x, p.y), d) in Labels(m, parts)
    ensures Longer(old(Labels(m, parts)), Labels(m, parts))
    ensures Labels(m, parts).Keys == old(Labels(m, parts).Keys) ==> left == left0
  {
    left := left0;
    assert forall c :: m.Has(c) ==> (c in Labels(m, parts) <==> parts[c.y, c.x].Some?);
    hide Map.Go, Map.Wrap, Growing, Mod, Ways, Wall, Dirs, Joined, Labels, Longer;
    var q := Step(p, d);
    var n := m.Wrap(q.x, q.y);
    LongerAdd(Labels(m, parts), n, Label(partnum, q.x, q.y));
    StepWraps(m, p, d);
    JoinedTest(m, m.Wrap(p.x, p.y), d, n);
    if !Wall(m.At(n)) || (d + 4) % 8 !in Ways(m.At(n)) {
      return;
    }
    if parts[n.y, n.x].None? {
      GrowOne(m, Labels(m, parts), seeds, left, p, d);
      left := left + [q];
      SetLabel(m, parts, n, Label(partnum, q.x, q.y));
    }
  }

  ghost predicate Longer(labels: map<Cell, Label>, longer: map<Cell, Label>) {
    forall c :: c in labels ==> c in longer && longer[c] == labels[c]
  }

  lemma LongerAdd(labels: map<Cell, Label>, c: Cell, l: Label)
    ensures Longer(labels, labels)
    ensures c !in labels ==> Longer(labels, labels[c := l])
  {
  }

  /** The invariant while the ways of the open cell c are visited: n of them are handled. */
  ghost predicate Expanding(m: Map, labels0: map<Cell, Label>, labels: map<Cell, Label>, seeds: seq<Cell>,
                            left0: seq<Pos>, left: seq<Pos>, c: Cell, n: nat)
    requires m.Valid() && m.Has(c) && n <= |Ways(m.At(c))|
  {
    && Growing(m, labels, seeds, left, Some(c))
    && Handled(m, labels, c, n)
    && Longer(labels0, labels)
    && (labels.Keys == labels0.Keys ==> left == left0)
  }

  lemma ExpandNext(m: Map, labels0: map<Cell, Label>, labels: map<Cell, Label>, longer: map<Cell, Label>,
                   seeds: seq<Cell>,
                   left0: seq<Pos>, left: seq<Pos>, left': seq<Pos>, c: Cell, n: nat)
    requires m.Valid() && m.Has(c) && n < |Ways(m.At(c))|
    requires Expanding(m, labels0, labels, seeds, left0, left, c, n)
    requires Growing(m, longer, seeds, left', Some(c)) && Longer(labels, longer)
    requires longer.Keys == labels.Keys ==> left' == left
    requires Joined(m, c, Ways(m.At(c))[n]) ==> m.Go(c, Ways(m.At(c))[n]) in longer
    ensures Expanding(m, labels0, longer, seeds, left0, left', c, n + 1)
  {
    hide Growing, Joined, Map.Go, Ways, Handled;
    HandledNext(m, labels, longer, c, n);
    assert labels0.Keys <= labels.Keys <= longer.Keys;
  }

  /** The body of the stack loop: label the unlabelled joined neighbours of p and stack them. */
  method Expand(m: Map, parts: array2<Option<Label>>, partnum: nat, p: Pos, left0: seq<Pos>, ghost seeds: seq<Cell>)
    returns (left: seq<Pos>)
    requires m.Valid() && parts.Length0 == m.height && parts.Length1 == m.width && partnum == |seeds| - 1
    requires Growing(m, Labels(m, parts), seeds, left0, Some(m.Wrap(p.x, p.y)))
    requires Labels(m, parts)[m.Wrap(p.x, p.y)] == Label(partnum, p.x, p.y)
    modifies parts
    ensures Growing(m, Labels(m, parts), seeds, left, None)
    ensures Longer(old(Labels(m, parts)), Labels(m, parts))
    ensures Labels(m, parts).Keys == old(Labels(m, parts).Keys) ==> left == left0
  {
    left := left0;
    var c := m.Wrap(p.x, p.y);
    var ways := Ways(m.At(c));
    HandledNone(m, Labels(m, parts), c);
    ghost var labels0 := Labels(m, parts);
    assert Expanding(m, labels0, labels0, seeds, left0, left0, c, 0);
    assert c in labels0;
    hide Map.Go, Map.Wrap, Labels, Expanding, Ways, Joined, Wall, Growing;
    for i := 0 to |ways|
      invariant Expanding(m, labels0, Labels(m, parts), seeds, left0, left, c, i)
    {
      ExpandFacts(m, labels0, Labels(m, parts), seeds, left0, left, c, i);
      ghost var labels, was := Labels(m, parts), left;
      left := Visit(m, parts, partnum, p, ways[i], left, seeds);
      ExpandNext(m, labels0, labels, Labels(m, parts), seeds, left0, was, left, c, i);
    }
    ExpandFacts(m, labels0, Labels(m, parts), seeds, left0, left, c, |ways|);
    Settled(m, Labels(m, parts), seeds, left, c);
  }

  lemma ExpandFacts(m: Map, labels0: map<Cell, Label>, labels: map<Cell, Label>, seeds: seq<Cell>,
                    left0: seq<Pos>, left: seq<Pos>, c: Cell, n: nat)
    requires m.Valid() && m.Has(c) && n <= |Ways(m.At(c))| && c in labels0
    requires Expanding(m, labels0, labels, seeds, left0, left, c, n)
    ensures Growing(m, labels, seeds, left, Some(c)) && Handled(m, labels, c, n) && Longer(labels0, labels)
    ensures c in labels && labels[c] == labels0[c]
    ensures labels.Keys == labels0.Keys ==> left == left0
  {
  }

  lemma JoinedTest(m: Map, c: Cell, d: Dir, n: Cell)
    requires m.Valid() && m.Has(c) && d in Ways(m.At(c)) && n == m.Go(c, d)
    ensures Joined(m, c, d) <==> Wall(m.At(n)) && (d + 4) % 8 in Ways(m.At(n))
  {
    hide Joined, Map.Go;
    JoinedWays(m, c, d);
  }

  lemma HandledNone(m: Map, labels: map<Cell, Label>, c: Cell)
    requires m.Valid() && m.Has(c)
    ensures Handled(m, labels, c, 0)
  {
  }

  lemma HandledNext(m: Map, labels: map<Cell, Label>, longer: map<Cell, Label>, c: Cell, n: nat)
    requires m.Valid() && m.Has(c) && n < |Ways(m.At(c))| && Longer(labels, longer)
    requires Handled(m, labels, c, n)
    requires Joined(m, c, Ways(m.At(c))[n]) ==> m.Go(c, Ways(m.At(c))[n]) in longer
    ensures Handled(m, longer, c, n + 1)
  {
    hide Map.Go, Joined;
    var w := Ways(m.At(c));
    assert w[..n + 1] == w[..n] + [w[n]];
  }

  /** The assignment mapparts[c] = l. */
  method SetLabel(m: Map, parts: array2<Option<Label>>, c: Cell, l: Label)
    requires m.Valid() && parts.Length0 == m.height && parts.Length1 == m.width && m.Has(c)
    modifies parts
    ensures Labels(m, parts) == old(Labels(m, parts))[c := l]
  {
    parts[c.y, c.x] := Some(l);
  }

  /** Popping a position makes its cell the open one. */
  lemma Pop(m: Map, labels: map<Cell, Label>, seeds: seq<Cell>, left: seq<Pos>)
    requires m.Valid() && 0 < |left| && Growing(m, labels, seeds, left, None)
    ensures var p, rest := left[|left| - 1], left[..|left| - 1];
            var c := m.Wrap(p.x, p.y);
            && Growing(m, labels, seeds, rest, Some(c))
            && c in labels && labels[c] == Label(|seeds| - 1, p.x, p.y)
  {
    var p, rest := left[|left| - 1], left[..|left| - 1];
    var c := m.Wrap(p.x, p.y);
    hide Map.Wrap, Truthful, ClosedAt, SeedsOk;
    assert Waiting(labels, |seeds| - 1, [p], c);
    forall e | e in labels
      ensures ClosedAt(m, labels, e) || Waiting(labels, |seeds| - 1, rest, e) || Some(e) == Some(c)
    {
      if Waiting(labels, |seeds| - 1, left, e) && Pos(labels[e].ux, labels[e].uy) !in rest {
        assert Pos(labels[e].ux, labels[e].uy) == p;
        assert Truthful(m, seeds, e, labels[e]);
        TruthfulWraps(m, seeds, e, labels[e]);
      }
    }
  }

  lemma TruthfulWraps(m: Map, seeds: seq<Cell>, c: Cell, l: Label)
    requires m.Valid() && Truthful(m, seeds, c, l)
    ensures m.Wrap(l.ux, l.uy) == c
  {
  }

  /** The stack loop: label everything joined to the newest seed. */
  method GrowPart(m: Map, parts: array2<Option<Label>>, partnum: nat, seed: Cell, ghost seeds: seq<Cell>)
    requires m.Valid() && parts.Length0 == m.height && parts.Length1 == m.width && partnum == |seeds| - 1
    requires Growing(m, Labels(m, parts), seeds, [Pos(seed.x, seed.y)], None)
    modifies parts
    ensures Growing(m, Labels(m, parts), seeds, [], None)
    ensures Longer(old(Labels(m, parts)), Labels(m, parts))
  {
    var left := [Pos(seed.x, seed.y)];
    hide Growing, Labels, Map.Wrap;
    while left != []
      invariant Growing(m, Labels(m, parts), seeds, left, None)
      invariant Longer(old(Labels(m, parts)), Labels(m, parts))
      decreases m.Cells() - Labels(m, parts).Keys, |left|
    {
      ghost var keys := Labels(m, parts).Keys;
      Pop(m, Labels(m, parts), seeds, left);
      var p := left[|left| - 1];
      left := Expand(m, parts, partnum, p, left[..|left| - 1], seeds);
      InMap(m, Labels(m, parts), seeds, left);
      assert keys != Labels(m, parts).Keys ==> keys < Labels(m, parts).Keys;
    }
  }

  lemma InMap(m: Map, labels: map<Cell, Label>, seeds: seq<Cell>, left: seq<Pos>)
    requires m.Valid() && Growing(m, labels, seeds, left, None)
    ensures labels.Keys <= m.Cells()
  {
  }

  /** Starting a new part at an unlabelled wall cell. */
  lemma Sow(m: Map, labels: map<Cell, Label>, seeds: seq<Cell>, c: Cell)
    requires m.Valid() && Growing(m, labels, seeds, [], None)
    requires m.Has(c) && Wall(m.At(c)) && c !in labels
    ensures Growing(m, labels[c := Label(|seeds|, c.x, c.y)], seeds + [c], [Pos(c.x, c.y)], None)
  {
    var longer := labels[c := Label(|seeds|, c.x, c.y)];
    hide Map.Wrap, ClosedAt;
    WrapHome(m, c);
    Refl(StepRel(m), Pos(c.x, c.y));
    assert Waiting(longer, |seeds|, [Pos(c.x, c.y)], c);
    forall e | e in labels
      ensures Truthful(m, seeds + [c], e, longer[e])
      ensures ClosedAt(m, longer, e)
    {
      assert Truthful(m, seeds, e, labels[e]);
      StillClosed(m, labels, longer, e);
    }
  }

  lemma StillClosed(m: Map, labels: map<Cell, Label>, longer: map<Cell, Label>, e: Cell)
    requires m.Valid() && e in labels && ClosedAt(m, labels, e)
    requires forall c :: c in labels ==> c in longer && longer[c] == labels[c]
    ensures ClosedAt(m, longer, e)
  {
  }

  /** All wall cells before position n of the row-major order are labelled. */
  ghost predicate Covered(m: Map, labels: map<Cell, Label>, x: nat, y: nat)
    requires m.Valid()
  {
    forall c :: m.Has(c) && Wall(m.At(c)) && (c.y < y || (c.y == y && c.x < x)) ==> c in labels
  }

  lemma Finished(m: Map, labels: map<Cell, Label>, seeds: seq<Cell>)
    requires m.Valid() && Growing(m, labels, seeds, [], None) && Covered(m, labels, 0, m.height)
    ensures IsPartition(m, labels, seeds)
  {
    hide ClosedAt, Truthful, SeedsOk, Wall;
  }

  lemma CoveredNext(m: Map, labels: map<Cell, Label>, longer: map<Cell, Label>, x: nat, y: nat)
    requires m.Valid() && Covered(m, labels, x, y) && Longer(labels, longer)
    requires x < m.width && y < m.height && (Wall(m.At(Cell(x, y))) ==> Cell(x, y) in longer)
    ensures Covered(m, longer, x + 1, y)
    ensures x + 1 == m.width ==> Covered(m, longer, 0, y + 1)
  {
    hide Wall;
  }

  /** One cell of the scan: start a part there if it is unlabelled wall. */
  method ScanCell(m: Map, parts: array2<Option<Label>>, partnum0: nat, c: Cell, ghost seeds0: seq<Cell>)
    returns (partnum: nat, ghost seeds: seq<Cell>)
    requires m.Valid() && parts.Length0 == m.height && parts.Length1 == m.width && m.Has(c)
    requires partnum0 == |seeds0| && Growing(m, Labels(m, parts), seeds0, [], None)
    modifies parts
    ensures partnum == |seeds| && Growing(m, Labels(m, parts), seeds, [], None)
    ensures Longer(old(Labels(m, parts)), Labels(m, parts))
    ensures Wall(m.At(c)) ==> c in Labels(m, parts)
  {
    partnum, seeds := partnum0, seeds0;
    hide Growing, Wall, Map.Wrap;
    if Wall(m.At(c)) && parts[c.y, c.x].None? {
      Sow(m, Labels(m, parts), seeds, c);
      SetLabel(m, parts, c, Label(partnum, c.x, c.y));
      seeds := seeds + [c];
      GrowPart(m, parts, partnum, c, seeds);
      partnum := partnum + 1;
    }
  }

  /** poly_partition. */
  method PolyPartition(m: Map) returns (parts: array2<Option<Label>>, partnum: nat, ghost seeds: seq<Cell>)
    requires m.Valid()
    ensures fresh(parts) && parts.Length0 == m.height && parts.Length1 == m.width
    ensures partnum == |seeds| && IsPartition(m, Labels(m, parts), seeds)
  {
    parts := new Option<Label>[m.height, m.width]((i, j) => None);
    partnum := 0;
    seeds := [];
    assert Labels(m, parts) == map[];
    assert Growing(m, map[], seeds, [], None);
    assert Covered(m, map[], 0, 0);
    hide Labels, Growing, Covered, Longer, Wall;
    for y := 0 to m.height
      invariant partnum == |seeds| && Growing(m, Labels(m, parts), seeds, [], None)
      invariant Covered(m, Labels(m, parts), 0, y)
    {
      for x := 0 to m.width
        invariant partnum == |seeds| && Growing(m, Labels(m, parts), seeds, [], None)
        invariant if x == m.width then Covered(m, Labels(m, parts), 0, y + 1) else Covered(m, Labels(m, parts), x, y)
      {
        ghost var labels := Labels(m, parts);
        partnum, seeds := ScanCell(m, parts, partnum, Cell(x, y), seeds);
        CoveredNext(m, labels, Labels(m, parts), x, y);
      }
    }
    Finished(m, Labels(m, parts), seeds);
  }
}
