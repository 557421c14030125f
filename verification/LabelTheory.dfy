/** What Label_map of wildmap.c computes: a numbering of the connected constructs of one kind of cell. */
module LabelTheory {
  import opened HelixMap
  import opened FloodTheory

  /** The construct of s that contains c. */
  ghost function Construct(t: Torus, s: set<int>, c: int): set<int>
    requires t.Valid()
  {
    set x | x in s && Joined(t, s, c, x)
  }

  /** Cells outside s are 0; every construct of s has one value, and shares it with no other construct
      unless that value is 0 (erased) or 1 (not reached yet); values stay below marker, and no cell from
      todo on is 1. */
  ghost predicate Labelling(t: Torus, s: set<int>, d: seq<byte>, todo: int, marker: int)
    requires t.Valid()
  {
    && |d| == t.n && 2 <= marker <= 256 && s <= AllCells(t)
    && (forall c :: t.Has(c) ==> LabelOk(s, d, todo, marker, c))
    && (forall i, j :: i in s && j in s && t.Near(i, j) ==> d[i] == d[j])
    && (forall i, j :: t.Has(i) && t.Has(j) && d[i] == d[j] && d[i] >= 2 ==> Joined(t, s, i, j))
  }

  ghost predicate LabelOk(s: set<int>, d: seq<byte>, todo: int, marker: int, c: int)
    requires 0 <= c < |d|
  {
    (c !in s ==> d[c] == 0) && (d[c] as int < marker || d[c] == 1) && (todo <= c ==> d[c] != 1)
  }

  /** The result of labelling: connected cells of s carry equal values, cells sharing a value of at
      least 2 are connected, no cell is 1, and cells outside s are 0. */
  ghost predicate Labelled(t: Torus, s: set<int>, d: seq<byte>)
    requires t.Valid()
  {
    && |d| == t.n && s <= AllCells(t)
    && (forall c :: t.Has(c) ==> d[c] != 1 && (c !in s ==> d[c] == 0))
    && (forall i, j :: i in s && j in s && Joined(t, s, i, j) ==> d[i] == d[j])
    && (forall i, j :: t.Has(i) && t.Has(j) && d[i] == d[j] && d[i] >= 2 ==> Joined(t, s, i, j))
  }

  lemma SameAlong(t: Torus, s: set<int>, d: seq<byte>, i: int, j: int)
    requires t.Valid() && |d| == t.n && s <= AllCells(t) && Joined(t, s, i, j)
    requires forall i, j :: i in s && j in s && t.Near(i, j) ==> d[i] == d[j]
    ensures i in s && j in s && d[i] == d[j]
  {
    var u := set x | x in s && d[x] == d[i];
    JoinedStays(t, s, u, i, j);
  }

  /** A map of ones and zeros is ready to be labelled. */
  lemma LabelStart(t: Torus, s: set<int>, d: seq<byte>)
    requires t.Valid() && |d| == t.n && s <= AllCells(t)
    requires forall c :: t.Has(c) ==> d[c] == if c in s then 1 else 0
    ensures Labelling(t, s, d, t.n, 2)
  {
  }

  lemma LabelEnd(t: Torus, s: set<int>, d: seq<byte>, marker: int)
    requires t.Valid() && Labelling(t, s, d, 0, marker)
    ensures Labelled(t, s, d)
  {
    forall c | t.Has(c)
      ensures d[c] != 1 && (c !in s ==> d[c] == 0)
    {
      assert LabelOk(s, d, 0, marker, c);
    }
    forall i, j | i in s && j in s && Joined(t, s, i, j)
      ensures d[i] == d[j]
    {
      SameAlong(t, s, d, i, j);
    }
  }

  lemma LabelSkip(t: Torus, s: set<int>, d: seq<byte>, todo: int, marker: int)
    requires t.Valid() && Labelling(t, s, d, todo + 1, marker) && t.Has(todo) && d[todo] != 1
    ensures Labelling(t, s, d, todo, marker)
  {
    forall c | t.Has(c)
      ensures LabelOk(s, d, todo, marker, c)
    {
      assert LabelOk(s, d, todo + 1, marker, c);
    }
  }

  /** The cells a flood of ones reaches are exactly the construct of the cell it starts from. */
  lemma FloodIsConstruct(t: Torus, s: set<int>, d: seq<byte>, todo: int, marker: int, c: int)
    requires t.Valid() && Labelling(t, s, d, todo + 1, marker) && t.Has(todo) && d[todo] == 1
    ensures todo in s
    ensures Joined(t, CellsWith(d, 1), todo, c) <==> Joined(t, s, todo, c)
  {
    var ones := CellsWith(d, 1);
    forall x | x in ones
      ensures x in s
    {
      assert t.Has(x);
      assert LabelOk(s, d, todo + 1, marker, x);
    }
    assert todo in ones;
    if Joined(t, ones, todo, c) {
      JoinedMore(t, ones, s, todo, c);
    }
    if Joined(t, s, todo, c) {
      var u := set x | x in s && Joined(t, ones, todo, x);
      JoinedEquivalence(t, ones, todo, todo, todo);
      forall x, y | x in u && y in s && t.Near(x, y)
        ensures y in u
      {
        JoinedEquivalence(t, ones, todo, x, y);
        assert y in ones;
      }
      JoinedStays(t, s, u, todo, c);
    }
  }

  /** Flooding a construct of ones with a new label keeps the labelling. */
  lemma LabelFlood(t: Torus, s: set<int>, d: seq<byte>, todo: int, marker: int, d': seq<byte>)
    requires t.Valid() && Labelling(t, s, d, todo + 1, marker) && t.Has(todo) && d[todo] == 1 && marker < 256
    requires d' == Flooded(t, d, 1, marker, todo)
    ensures todo in s
    ensures forall c :: t.Has(c) ==> d'[c] == if Joined(t, s, todo, c) then marker else d[c]
    ensures Labelling(t, s, d', todo, marker + 1)
  {
    FloodIsConstruct(t, s, d, todo, marker, todo);
    forall c | t.Has(c)
      ensures d'[c] == if Joined(t, s, todo, c) then marker else d[c]
    {
      FloodIsConstruct(t, s, d, todo, marker, c);
    }
    JoinedEquivalence(t, s, todo, todo, todo);
    LabelFloodCells(t, s, d, todo, marker, d');
  }

  lemma LabelFloodCells(t: Torus, s: set<int>, d: seq<byte>, todo: int, marker: int, d': seq<byte>)
    requires t.Valid() && Labelling(t, s, d, todo + 1, marker) && t.Has(todo) && d[todo] == 1 && marker < 256
    requires |d'| == t.n && todo in s && Joined(t, s, todo, todo)
    requires forall c :: t.Has(c) ==> d'[c] == if Joined(t, s, todo, c) then marker else d[c]
    ensures Labelling(t, s, d', todo, marker + 1)
  {
    hide Joined;
    forall c | t.Has(c)
      ensures LabelOk(s, d', todo, marker + 1, c)
    {
      assert LabelOk(s, d, todo + 1, marker, c);
      JoinedEquivalence(t, s, todo, c, c);
    }
    forall i, j | i in s && j in s && t.Near(i, j)
      ensures d'[i] == d'[j]
    {
      NearSymmetric(t, i, j);
      JoinedEquivalence(t, s, todo, i, j);
      JoinedEquivalence(t, s, todo, j, i);
    }
    forall i, j | t.Has(i) && t.Has(j) && d'[i] == d'[j] && d'[i] >= 2
      ensures Joined(t, s, i, j)
    {
      assert LabelOk(s, d, todo + 1, marker, i);
      assert LabelOk(s, d, todo + 1, marker, j);
      if Joined(t, s, todo, i) {
        assert Joined(t, s, todo, j);
        JoinedEquivalence(t, s, todo, i, i);
        JoinedEquivalence(t, s, i, todo, j);
      }
    }
  }

  // Renumbering when the labels run out.

  /** The map with every value v replaced by f[v]. */
  function Mapped(d: seq<byte>, f: seq<byte>): (r: seq<byte>)
    requires |f| == 256
    ensures |r| == |d| && forall c :: 0 <= c < |d| ==> r[c] == f[d[c]]
  {
    seq(|d|, c requires 0 <= c < |d| => f[d[c]])
  }

  /** A renumbering keeps 0 and 1, and gives the labels it keeps different numbers below 224. */
  ghost predicate Renumbering(f: seq<byte>) {
    && |f| == 256 && f[0] == 0 && f[1] == 1
    && (forall v :: 0 <= v < 256 ==> f[v] < 224)
    && (forall u, v :: 0 <= u < v < 256 && f[u] == f[v] ==> f[u] == 0)
  }

  lemma LabelRenumber(t: Torus, s: set<int>, d: seq<byte>, f: seq<byte>, todo: int, marker: int)
    requires t.Valid() && Labelling(t, s, d, todo, marker) && Renumbering(f)
    ensures Labelling(t, s, Mapped(d, f), todo, 224)
    ensures forall c :: t.Has(c) ==> (Mapped(d, f)[c] == 1 <==> d[c] == 1) && (d[c] == 0 ==> Mapped(d, f)[c] == 0)
  {
    hide Joined;
    var d' := Mapped(d, f);
    forall c | t.Has(c)
      ensures LabelOk(s, d', todo, 224, c) && (d'[c] == 1 <==> d[c] == 1) && (d[c] == 0 ==> d'[c] == 0)
    {
      assert LabelOk(s, d, todo, marker, c);
      assert f[d[c]] < 224;
    }
    forall i, j | t.Has(i) && t.Has(j) && d'[i] == d'[j] && d'[i] >= 2
      ensures Joined(t, s, i, j)
    {
      assert d[i] == d[j];
    }
  }
}
