/** Flood_map of wildmap.c: give every cell connected to cell i through cells of the trigger value
    the marker value. */
module FloodTheory {
  import opened HelixMap
  import opened Worklist

  ghost function CellsWith(d: seq<byte>, v: int): set<int> {
    set c | 0 <= c < |d| && d[c] as int == v
  }

  /** The map after flooding from cell i: the connected trigger cells are marked, all others unchanged. */
  ghost function Flooded(t: Torus, d: seq<byte>, trigger: byte, marker: byte, i: int): seq<byte>
    requires t.Valid()
  {
    seq(|d|, c requires 0 <= c < |d| => if Joined(t, CellsWith(d, trigger as int), i, c) then marker else d[c])
  }

  ghost predicate Pending(p: seq<seq<int>>, c: int) {
    exists k :: 0 <= k < |p| && c in p[k]
  }

  ghost function Total(p: seq<seq<int>>): nat {
    if p == [] then 0 else |p[0]| + Total(p[1..])
  }

  /** No neighbour of c waits to be flooded. */
  predicate Expanded(t: Torus, d: seq<byte>, trigger: byte, c: int)
    requires t.Valid() && |d| == t.n && t.Has(c)
  {
    d[t.Up(c)] != trigger && d[t.Left(c)] != trigger && d[t.Down(c)] != trigger && d[t.Right(c)] != trigger
  }

  /** How flooding has got from map d0 to map d: marked cells are connected to i, pending cells are
      marked, and every marked cell is pending, or is the open one, or has no neighbour left to flood. */
  ghost predicate Flooding(t: Torus, d0: seq<byte>, d: seq<byte>, trigger: byte, marker: byte, i: int,
                           p: seq<seq<int>>, open: int)
    requires t.Valid()
  {
    && |d| == |d0| == t.n && t.Has(i) && trigger != marker && d0[i] == trigger && d[i] == marker
    && (forall c :: t.Has(c) ==> CellOk(t, d0, d, trigger, marker, i, p, open, c))
    && (forall c :: Pending(p, c) ==> t.Has(c) && d0[c] == trigger && d[c] == marker)
  }

  ghost predicate CellOk(t: Torus, d0: seq<byte>, d: seq<byte>, trigger: byte, marker: byte, i: int,
                         p: seq<seq<int>>, open: int, c: int)
    requires t.Valid() && |d| == |d0| == t.n && t.Has(c)
  {
    if d0[c] == trigger && d[c] == marker then
      Joined(t, CellsWith(d0, trigger as int), i, c) && (c == open || Pending(p, c) || Expanded(t, d, trigger, c))
    else d[c] == d0[c]
  }

  lemma FloodStart(t: Torus, d0: seq<byte>, trigger: byte, marker: byte, i: int)
    requires t.Valid() && |d0| == t.n && t.Has(i) && trigger != marker && d0[i] == trigger
    ensures Flooding(t, d0, d0[i := marker], trigger, marker, i, [[i]], -1)
  {
    JoinedEquivalence(t, CellsWith(d0, trigger as int), i, i, i);
    assert i in [[i]][0];
  }

  lemma PendingLast(p: seq<seq<int>>, j: int, c: int)
    requires 0 < |p|
    ensures Pending(Chunks.PutLast(p, j), c) <==> Pending(p, c) || c == j
  {
    var p' := Chunks.PutLast(p, j);
    if Pending(p, c) {
      var k :| 0 <= k < |p| && c in p[k];
      assert c in p'[k];
    }
    assert j in p'[|p| - 1];
    if Pending(p', c) {
      var k :| 0 <= k < |p'| && c in p'[k];
      assert k < |p| - 1 ==> c in p[k];
    }
  }

  lemma PendingPop(p: seq<seq<int>>, rest: seq<int>, k: int, c: int)
    requires 0 < |p| && p[0] == rest + [k]
    ensures Pending(p, c) <==> Pending(p[0 := rest], c) || c == k
  {
    var p' := p[0 := rest];
    assert c in p[0] <==> c in rest || c == k;
    assert p'[0] == rest && forall j :: 0 < j < |p| ==> p'[j] == p[j];
    if Pending(p, c) {
      var j :| 0 <= j < |p| && c in p[j];
      assert 0 < j ==> c in p'[j];
    }
    if Pending(p', c) {
      var j :| 0 <= j < |p'| && c in p'[j];
      assert c in p[j];
    }
    assert k in p[0];
  }

  lemma PendingShift(p: seq<seq<int>>, c: int)
    requires 0 < |p|
    ensures Pending(p + [[]], c) <==> Pending(p, c)
    ensures p[0] == [] ==> (Pending(p[1..], c) <==> Pending(p, c))
  {
    if Pending(p, c) {
      var j :| 0 <= j < |p| && c in p[j];
      assert c in (p + [[]])[j];
      assert 0 < j ==> c in p[1..][j - 1];
    }
    if Pending(p[1..], c) {
      var j :| 0 <= j < |p[1..]| && c in p[1..][j];
      assert c in p[j + 1];
    }
    if Pending(p + [[]], c) {
      var j :| 0 <= j < |p + [[]]| && c in (p + [[]])[j];
      assert c in p[j];
    }
  }

  /** Moving cells between chunks changes nothing. */
  lemma FloodSame(t: Torus, d0: seq<byte>, d: seq<byte>, trigger: byte, marker: byte, i: int,
                  p: seq<seq<int>>, p': seq<seq<int>>, open: int)
    requires t.Valid() && Flooding(t, d0, d, trigger, marker, i, p, open) && 0 < |p|
    requires p' == p || p' == p + [[]] || (p[0] == [] && p' == p[1..])
    ensures Flooding(t, d0, d, trigger, marker, i, p', open)
  {
    hide Pending, Expanded;
    forall c
      ensures Pending(p', c) <==> Pending(p, c)
    {
      PendingShift(p, c);
    }
    forall c | t.Has(c)
      ensures CellOk(t, d0, d, trigger, marker, i, p', open, c)
    {
      assert CellOk(t, d0, d, trigger, marker, i, p, open, c);
    }
  }

  /** The popped cell becomes the open one. */
  lemma FloodPop(t: Torus, d0: seq<byte>, d: seq<byte>, trigger: byte, marker: byte, i: int,
                 p: seq<seq<int>>, rest: seq<int>, k: int)
    requires t.Valid() && Flooding(t, d0, d, trigger, marker, i, p, -1) && 0 < |p| && p[0] == rest + [k]
    ensures t.Has(k) && d[k] == marker && d0[k] == trigger
    ensures Flooding(t, d0, d, trigger, marker, i, p[0 := rest], k)
  {
    hide Pending, Expanded;
    forall c
      ensures Pending(p, c) <==> Pending(p[0 := rest], c) || c == k
    {
      PendingPop(p, rest, k, c);
    }
    forall c | t.Has(c)
      ensures CellOk(t, d0, d, trigger, marker, i, p[0 := rest], k, c)
    {
      assert CellOk(t, d0, d, trigger, marker, i, p, -1, c);
    }
  }

  /** Marking and stacking a trigger cell next to the open one. */
  lemma FloodVisit(t: Torus, d0: seq<byte>, d: seq<byte>, trigger: byte, marker: byte, i: int,
                   p: seq<seq<int>>, open: int, j: int)
    requires t.Valid() && Flooding(t, d0, d, trigger, marker, i, p, open) && 0 < |p|
    requires t.Has(open) && d[open] == marker && d0[open] == trigger && t.Near(open, j) && d[j] == trigger
    ensures Flooding(t, d0, d[j := marker], trigger, marker, i, Chunks.PutLast(p, j), open)
  {
    hide Pending;
    var s := CellsWith(d0, trigger as int);
    assert CellOk(t, d0, d, trigger, marker, i, p, open, open);
    assert CellOk(t, d0, d, trigger, marker, i, p, open, j);
    JoinedEquivalence(t, s, i, open, j);
    forall c
      ensures Pending(Chunks.PutLast(p, j), c) <==> Pending(p, c) || c == j
    {
      PendingLast(p, j, c);
    }
    forall c | t.Has(c)
      ensures CellOk(t, d0, d[j := marker], trigger, marker, i, Chunks.PutLast(p, j), open, c)
    {
      assert CellOk(t, d0, d, trigger, marker, i, p, open, c);
    }
  }

  lemma FloodClose(t: Torus, d0: seq<byte>, d: seq<byte>, trigger: byte, marker: byte, i: int,
                   p: seq<seq<int>>, open: int)
    requires t.Valid() && Flooding(t, d0, d, trigger, marker, i, p, open) && t.Has(open)
             && Expanded(t, d, trigger, open)
    ensures Flooding(t, d0, d, trigger, marker, i, p, -1)
  {
    hide Pending, Expanded;
    forall c | t.Has(c)
      ensures CellOk(t, d0, d, trigger, marker, i, p, -1, c)
    {
      assert CellOk(t, d0, d, trigger, marker, i, p, open, c);
    }
  }

  /** With nothing pending the flood is complete. */
  lemma FloodEnd(t: Torus, d0: seq<byte>, d: seq<byte>, trigger: byte, marker: byte, i: int, p: seq<seq<int>>)
    requires t.Valid() && Flooding(t, d0, d, trigger, marker, i, p, -1) && |p| == 1 && p[0] == []
    ensures d == Flooded(t, d0, trigger, marker, i)
  {
    hide Pending;
    var s := CellsWith(d0, trigger as int);
    forall c
      ensures !Pending(p, c)
    {
      PendingEmpty(p, c);
    }
    var u := set c | c in s && d[c] == marker;
    forall x, y | x in u && y in s && t.Near(x, y)
      ensures y in u
    {
      assert CellOk(t, d0, d, trigger, marker, i, p, -1, x);
      assert CellOk(t, d0, d, trigger, marker, i, p, -1, y);
    }
    forall c | t.Has(c)
      ensures d[c] == Flooded(t, d0, trigger, marker, i)[c]
    {
      assert CellOk(t, d0, d, trigger, marker, i, p, -1, c);
      if Joined(t, s, i, c) {
        JoinedStays(t, s, u, i, c);
      }
    }
  }

  lemma PendingEmpty(p: seq<seq<int>>, c: int)
    requires |p| == 1 && p[0] == []
    ensures !Pending(p, c)
  {
  }
}
