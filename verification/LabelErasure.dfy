/** Which constructs Label_map of wildmap.c erases when the 8-bit labels run out. */
module LabelErasure {
  import opened HelixMap
  import opened FloodTheory
  import opened LabelTheory

  /** How many cells have the value v. */
  ghost function Count(d: seq<byte>, v: int): nat {
    |CellsWith(d, v)|
  }

  ghost predicate Uses(d: seq<byte>, v: int) {
    exists c :: 0 <= c < |d| && d[c] as int == v
  }

  /** There are more constructs in s than labels: 255 cells of s, no two of them connected. */
  ghost predicate TooMany(t: Torus, s: set<int>)
    requires t.Valid()
  {
    exists p :: |p| == 255 && Apart(t, s, p)
  }

  ghost predicate Apart(t: Torus, s: set<int>, p: seq<int>)
    requires t.Valid()
  {
    && (forall a :: 0 <= a < |p| ==> p[a] in s)
    && (forall a, b :: 0 <= a < b < |p| ==> !Joined(t, s, p[a], p[b]))
  }

  ghost predicate Erased(s: set<int>, d: seq<byte>, c: int) {
    c in s && 0 <= c < |d| && d[c] == 0
  }

  /** Some labelled construct is at least as large as the one of c. */
  ghost predicate Outdone(t: Torus, s: set<int>, d: seq<byte>, c: int)
    requires t.Valid()
  {
    exists e :: 0 <= e < |d| && d[e] >= 2 && |Construct(t, s, c)| <= |Construct(t, s, e)|
  }

  /** Constructs are erased only when there are too many, and never the largest one. */
  ghost predicate Erasure(t: Torus, s: set<int>, d: seq<byte>)
    requires t.Valid()
  {
    && ((exists c :: Erased(s, d, c)) <==> TooMany(t, s))
    && (forall c :: Erased(s, d, c) ==> Outdone(t, s, d, c))
  }

  /** Erasure on the way: either nothing was erased and every label below marker is in use, or there
      were too many constructs and some are erased. */
  ghost predicate Erasing(t: Torus, s: set<int>, d: seq<byte>, marker: int, recycled: bool)
    requires t.Valid()
  {
    && (forall c :: Erased(s, d, c) ==> Outdone(t, s, d, c))
    && (if recycled then TooMany(t, s) && exists c :: Erased(s, d, c)
        else (forall c :: !Erased(s, d, c)) && (forall v :: 2 <= v < marker ==> Uses(d, v)))
  }

  lemma EraseFlood(t: Torus, s: set<int>, d: seq<byte>, todo: int, marker: int, recycled: bool, d': seq<byte>)
    requires t.Valid() && Labelling(t, s, d, todo + 1, marker) && t.Has(todo) && d[todo] == 1 && marker < 256
    requires Erasing(t, s, d, marker, recycled) && d' == Flooded(t, d, 1, marker, todo)
    ensures Erasing(t, s, d', marker + 1, recycled)
  {
    hide Construct, Joined, TooMany;
    LabelFlood(t, s, d, todo, marker, d');
    JoinedEquivalence(t, s, todo, todo, todo);
    forall c | t.Has(c) && d[c] != 1
      ensures d'[c] == d[c]
    {
      if Joined(t, s, todo, c) {
        SameAlong(t, s, d, todo, c);
      }
    }
    forall c | Erased(s, d', c)
      ensures Outdone(t, s, d', c)
    {
      assert Erased(s, d, c);
      var e :| 0 <= e < |d| && d[e] >= 2 && |Construct(t, s, c)| <= |Construct(t, s, e)|;
      assert d'[e] >= 2;
    }
    if recycled {
      var c :| Erased(s, d, c);
      assert Erased(s, d', c);
    } else {
      forall c
        ensures !Erased(s, d', c)
      {
        assert !Erased(s, d, c);
      }
      forall v | 2 <= v < marker + 1
        ensures Uses(d', v)
      {
        UsesMore(d, d', todo, marker, v);
      }
    }
  }

  lemma UsesMore(d: seq<byte>, d': seq<byte>, todo: int, marker: int, v: int)
    requires |d'| == |d| && 0 <= todo < |d| && d'[todo] as int == marker && 2 <= v <= marker
    requires v < marker ==> Uses(d, v)
    requires forall c :: 0 <= c < |d| && d[c] != 1 ==> d'[c] == d[c]
    ensures Uses(d', v)
  {
    if v < marker {
      var c :| 0 <= c < |d| && d[c] as int == v;
      assert d'[c] as int == v;
    } else {
      assert d'[todo] as int == v;
    }
  }

  /** The cells with a label are the construct of any one of them. */
  lemma LabelIsConstruct(t: Torus, s: set<int>, d: seq<byte>, todo: int, marker: int, e: int)
    requires t.Valid() && Labelling(t, s, d, todo, marker) && t.Has(e) && d[e] >= 2
    ensures e in s && CellsWith(d, d[e] as int) == Construct(t, s, e)
  {
    assert LabelOk(s, d, todo, marker, e);
    forall x
      ensures x in CellsWith(d, d[e] as int) <==> x in Construct(t, s, e)
    {
      if x in CellsWith(d, d[e] as int) {
        assert Joined(t, s, e, x);
        JoinedEquivalence(t, s, e, x, x);
      }
      if x in Construct(t, s, e) {
        SameAlong(t, s, d, e, x);
      }
    }
  }

  /** The renumbering keeps the label with the most cells, and erases some label. */
  ghost predicate KeepsTop(d: seq<byte>, f: seq<byte>, top: byte, gone: byte)
    requires |f| == 256
  {
    && top >= 2 && f[top] >= 2 && gone >= 2 && f[gone] == 0
    && forall v :: 2 <= v < 256 ==> Count(d, v) <= Count(d, top as int)
  }

  lemma EraseRenumber(t: Torus, s: set<int>, d: seq<byte>, todo: int, marker: int, recycled: bool,
                      f: seq<byte>, top: byte, gone: byte)
    requires t.Valid() && Labelling(t, s, d, todo + 1, marker) && marker == 256 && t.Has(todo) && d[todo] == 1
    requires Erasing(t, s, d, marker, recycled) && Renumbering(f) && KeepsTop(d, f, top, gone)
    ensures Erasing(t, s, Mapped(d, f), 224, true)
  {
    hide TooMany, Construct, Joined, Labelling, Outdone, CellsWith;
    var d' := Mapped(d, f);
    LabelRenumber(t, s, d, f, todo + 1, marker);
    SizeKept(t, s, d);
    forall c | Erased(s, d', c)
      ensures Outdone(t, s, d', c)
    {
      OutdoneByTop(t, s, d, todo, marker, f, top, gone, c);
    }
    if recycled {
      var c :| Erased(s, d, c);
      assert Erased(s, d', c);
    } else {
      assert Uses(d, gone as int);
      var c :| 0 <= c < |d| && d[c] == gone;
      LabelIsConstruct(t, s, d, todo + 1, marker, c);
      assert Erased(s, d', c);
      AllUsed(t, s, d, todo, marker);
    }
  }

  lemma SizeKept(t: Torus, s: set<int>, d: seq<byte>)
    requires t.Valid()
    ensures forall todo, marker {:trigger Labelling(t, s, d, todo, marker)} :: Labelling(t, s, d, todo, marker) ==>
            |d| == t.n
  {
  }

  lemma OutdoneByTop(t: Torus, s: set<int>, d: seq<byte>, todo: int, marker: int,
                     f: seq<byte>, top: byte, gone: byte, c: int)
    requires t.Valid() && Labelling(t, s, d, todo + 1, marker) && Renumbering(f) && KeepsTop(d, f, top, gone)
    requires forall c :: Erased(s, d, c) ==> Outdone(t, s, d, c)
    requires Erased(s, Mapped(d, f), c)
    ensures Outdone(t, s, Mapped(d, f), c)
  {
    hide Joined, Construct;
    var e := c;
    if d[c] == 0 {
      assert Erased(s, d, c);
      e :| 0 <= e < |d| && d[e] >= 2 && |Construct(t, s, c)| <= |Construct(t, s, e)|;
    }
    assert d[e] >= 2;
    LabelIsConstruct(t, s, d, todo + 1, marker, e);
    assert e in CellsWith(d, d[e] as int);
    assert Count(d, d[e] as int) <= Count(d, top as int);
    var x :| x in CellsWith(d, top as int);
    LabelIsConstruct(t, s, d, todo + 1, marker, x);
    assert Mapped(d, f)[x] >= 2;
  }

  ghost function CellOf(d: seq<byte>, v: int): (c: int)
    requires Uses(d, v)
    ensures 0 <= c < |d| && d[c] as int == v
  {
    var c :| 0 <= c < |d| && d[c] as int == v;
    c
  }

  /** All 254 labels in use and a construct left over: too many constructs. */
  lemma AllUsed(t: Torus, s: set<int>, d: seq<byte>, todo: int, marker: int)
    requires t.Valid() && Labelling(t, s, d, todo + 1, marker) && t.Has(todo) && d[todo] == 1
    requires forall v :: 2 <= v < 256 ==> Uses(d, v)
    ensures TooMany(t, s)
  {
    hide Joined;
    var p := seq(255, k requires 0 <= k < 255 => if k < 254 then CellOf(d, k + 2) else todo);
    forall a | 0 <= a < |p|
      ensures t.Has(p[a]) && p[a] in s && d[p[a]] as int == if a < 254 then a + 2 else 1
    {
      assert LabelOk(s, d, todo + 1, marker, p[a]);
    }
    forall a, b | 0 <= a < b < |p|
      ensures !Joined(t, s, p[a], p[b])
    {
      if Joined(t, s, p[a], p[b]) {
        SameAlong(t, s, d, p[a], p[b]);
      }
    }
    assert Apart(t, s, p);
  }

  /** There are at most hi - lo different numbers from lo to hi - 1. */
  lemma {:induction false} Pigeonhole(p: seq<int>, lo: int, hi: int)
    requires lo <= hi
    requires forall a :: 0 <= a < |p| ==> lo <= p[a] < hi
    requires forall a, b :: 0 <= a < b < |p| ==> p[a] != p[b]
    ensures |p| <= hi - lo
    decreases hi - lo
  {
    if 0 < |p| {
      assert lo <= p[0] < hi;
      if k :| 0 <= k < |p| && p[k] == hi - 1 {
        var q := p[..k] + p[k + 1..];
        forall a | 0 <= a < |q|
          ensures q[a] == p[if a < k then a else a + 1]
        {
        }
        Pigeonhole(q, lo, hi - 1);
      } else {
        Pigeonhole(p, lo, hi - 1);
      }
    }
  }

  lemma EraseStart(t: Torus, s: set<int>, d: seq<byte>)
    requires t.Valid() && |d| == t.n && s <= AllCells(t)
    requires forall c :: t.Has(c) ==> d[c] == if c in s then 1 else 0
    ensures Erasing(t, s, d, 2, false)
  {
  }

  lemma EraseEnd(t: Torus, s: set<int>, d: seq<byte>, marker: int, recycled: bool)
    requires t.Valid() && Labelled(t, s, d) && Erasing(t, s, d, marker, recycled)
    ensures Erasure(t, s, d)
  {
    hide Joined, Outdone, TooMany;
    if !recycled && TooMany(t, s) {
      NotTooMany(t, s, d);
    }
  }

  lemma NotTooMany(t: Torus, s: set<int>, d: seq<byte>)
    requires t.Valid() && Labelled(t, s, d) && forall c :: !Erased(s, d, c)
    ensures !TooMany(t, s)
  {
    hide Joined;
    if TooMany(t, s) {
      var p :| |p| == 255 && Apart(t, s, p);
      var q := seq(255, k requires 0 <= k < 255 => Label(d, p[k]));
      forall a | 0 <= a < 255
        ensures t.Has(p[a]) && q[a] == d[p[a]] as int && 2 <= q[a] < 256
      {
        assert p[a] in s && p[a] in AllCells(t);
        assert !Erased(s, d, p[a]);
      }
      Pigeonhole(q, 2, 256);
    }
  }

  function Label(d: seq<byte>, c: int): int {
    if 0 <= c < |d| then d[c] as int else 0
  }
}
