/** The map of wildmap.c: one array of cells that wraps around in both directions, so that the right
    end of a line is next to the start of the following line (a helical torus). */
module HelixMap {
  import opened Reach

  type byte = b: int | 0 <= b < 256

  /** n is the number of cells, lw the length of a line. */
  datatype Torus = Torus(n: nat, lw: nat) {
    predicate Valid() { 0 < lw <= n }

    predicate Has(i: int) { 0 <= i < n }

    // The macros MAPOFFLEFT, MAPOFFRIGHT, MAPOFFUP and MAPOFFDOWN.

    function Left(i: int): (j: int)
      requires Valid() && Has(i)
      ensures Has(j)
    {
      if i >= 1 then i - 1 else n - 1
    }

    function Right(i: int): (j: int)
      requires Valid() && Has(i)
      ensures Has(j)
    {
      if i + 1 < n then i + 1 else 0
    }

    function Up(i: int): (j: int)
      requires Valid() && Has(i)
      ensures Has(j)
    {
      if i >= lw then i - lw else i - lw + n
    }

    function Down(i: int): (j: int)
      requires Valid() && Has(i)
      ensures Has(j)
    {
      if i + lw < n then i + lw else i + lw - n
    }

    predicate Near(i: int, j: int)
      requires Valid()
    {
      Has(i) && Has(j) && (j == Up(i) || j == Left(i) || j == Down(i) || j == Right(i))
    }
  }

  /** The four maps undo each other, so being near is symmetric. */
  lemma NearSymmetric(t: Torus, i: int, j: int)
    requires t.Valid() && t.Near(i, j)
    ensures t.Near(j, i)
    ensures t.Left(t.Right(i)) == i && t.Right(t.Left(i)) == i && t.Up(t.Down(i)) == i && t.Down(t.Up(i)) == i
  {
  }

  /** Near cells that both belong to s. */
  ghost function NearIn(t: Torus, s: set<int>): (r: (int, int) -> bool)
    requires t.Valid()
    ensures forall i, j :: r(i, j) <==> i in s && j in s && t.Near(i, j)
  {
    (i, j) => i in s && j in s && t.Near(i, j)
  }

  /** i and j are joined by a path of near cells inside s. */
  ghost predicate Joined(t: Torus, s: set<int>, i: int, j: int)
    requires t.Valid()
  {
    i in s && Connected(NearIn(t, s), i, j)
  }

  lemma NearInSymmetric(t: Torus, s: set<int>)
    requires t.Valid()
    ensures Symmetric(NearIn(t, s))
  {
    forall i, j | NearIn(t, s)(i, j)
      ensures NearIn(t, s)(j, i)
    {
      NearSymmetric(t, i, j);
    }
  }

  lemma JoinedEquivalence(t: Torus, s: set<int>, i: int, j: int, k: int)
    requires t.Valid()
    ensures i in s ==> Joined(t, s, i, i)
    ensures Joined(t, s, i, j) ==> j in s && Joined(t, s, j, i)
    ensures Joined(t, s, i, j) && Joined(t, s, j, k) ==> Joined(t, s, i, k)
    ensures Joined(t, s, i, j) && k in s && t.Near(j, k) ==> Joined(t, s, i, k)
  {
    var r := NearIn(t, s);
    NearInSymmetric(t, s);
    if i in s {
      Refl(r, i);
    }
    if Joined(t, s, i, j) {
      JoinedInside(t, s, i, j);
      Sym(r, i, j);
      if Joined(t, s, j, k) {
        Trans(r, i, j, k);
      }
      if k in s && t.Near(j, k) {
        Extend(r, i, j, k);
      }
    }
  }

  lemma JoinedInside(t: Torus, s: set<int>, i: int, j: int)
    requires t.Valid() && Joined(t, s, i, j)
    ensures j in s
  {
    var inside := iset x | x in s;
    Stays(NearIn(t, s), inside, i, j);
  }

  /** A set of cells of s that no step inside s leaves contains everything joined to its members. */
  lemma JoinedStays(t: Torus, s: set<int>, u: set<int>, i: int, j: int)
    requires t.Valid() && Joined(t, s, i, j) && i in u
    requires forall x, y :: x in u && y in s && t.Near(x, y) ==> y in u
    ensures j in u
  {
    var inside := iset x | x in u;
    Stays(NearIn(t, s), inside, i, j);
  }

  lemma JoinedMore(t: Torus, s: set<int>, s': set<int>, i: int, j: int)
    requires t.Valid() && Joined(t, s, i, j) && s <= s'
    ensures Joined(t, s', i, j)
  {
    var u := set x | x in s && Joined(t, s', i, x);
    JoinedEquivalence(t, s', i, i, i);
    forall x, y | x in u && y in s && t.Near(x, y)
      ensures y in u
    {
      JoinedEquivalence(t, s', i, x, y);
    }
    JoinedStays(t, s, u, i, j);
  }

  ghost function AllCells(t: Torus): set<int> {
    set i | 0 <= i < t.n && t.Has(i)
  }

  /** Walking right visits every cell: the whole torus is connected. */
  lemma {:induction false} TorusConnected(t: Torus, i: int, j: int)
    requires t.Valid() && t.Has(i) && t.Has(j)
    ensures Joined(t, AllCells(t), i, j)
    decreases if i <= j then j - i else t.n - i + j
  {
    var s := AllCells(t);
    JoinedEquivalence(t, s, i, i, i);
    if i != j {
      var k := t.Right(i);
      TorusConnected(t, k, j);
      JoinedEquivalence(t, s, i, i, k);
      JoinedEquivalence(t, s, i, k, j);
    }
  }
}
