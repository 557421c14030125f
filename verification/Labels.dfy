/** Count_labels, Sort_labels and Label_map of wildmap.c. */
module Labels {
  import opened HelixMap
  import opened FloodTheory
  import opened LabelTheory
  import opened LabelErasure
  import opened WildMap

  ghost function CellsFrom(d: seq<byte>, v: int, todo: int): set<int> {
    set c | 0 <= c < |d| && todo <= c && d[c] as int == v
  }

  lemma CountStep(d: seq<byte>, v: int, todo: int)
    requires 0 <= todo < |d|
    ensures |CellsFrom(d, v, todo)| == |CellsFrom(d, v, todo + 1)| + (if d[todo] as int == v then 1 else 0)
  {
    var s, s' := CellsFrom(d, v, todo), CellsFrom(d, v, todo + 1);
    assert s == if d[todo] as int == v then s' + {todo} else s';
  }

  lemma CountWhole(d: seq<byte>, v: int)
    ensures |CellsFrom(d, v, 0)| == Count(d, v) && |CellsFrom(d, v, |d|)| == 0
  {
    assert CellsFrom(d, v, 0) == CellsWith(d, v);
    assert CellsFrom(d, v, |d|) == {};
  }

  /** floodCount[v] is the number of cells with value v. */
  ghost predicate Counted(wm: WildMap)
    requires wm.Valid()
    reads wm.data, wm.floodCount
  {
    forall v :: 0 <= v < 256 ==> wm.floodCount[v] == Count(wm.data[..], v)
  }

  method CountLabels(wm: WildMap)
    requires wm.Valid()
    modifies wm.floodCount
    ensures Counted(wm)
  {
    hide CellsFrom, CellsWith;
    ghost var d := wm.data[..];
    assert |d| == wm.t.n;
    forall v | 0 <= v < 256 {
      wm.floodCount[v] := 0;
    }
    forall v | 0 <= v < 256
      ensures |CellsFrom(d, v, 0)| == Count(d, v) && |CellsFrom(d, v, |d|)| == 0
    {
      CountWhole(d, v);
    }
    var todo := wm.t.n;
    while todo > 0
      invariant 0 <= todo <= wm.t.n && wm.data[..] == d
      invariant forall v :: 0 <= v < 256 ==> wm.floodCount[v] == |CellsFrom(d, v, todo)|
    {
      todo := todo - 1;
      forall v | 0 <= v < 256
        ensures |CellsFrom(d, v, todo)| == |CellsFrom(d, v, todo + 1)| + (if d[todo] as int == v then 1 else 0)
      {
        CountStep(d, v, todo);
      }
      wm.floodCount[wm.data[todo]] := wm.floodCount[wm.data[todo]] + 1;
    }
  }

  /** Label u comes before label v: it has more cells, or as many and a smaller number. */
  predicate Before(count: seq<nat>, u: int, v: int)
    requires |count| == 256 && 0 <= u < 256 && 0 <= v < 256
  {
    count[u] > count[v] || (count[u] == count[v] && u < v)
  }

  /** The labels from 2 to n - 1, the largest constructs first. */
  ghost predicate Ranking(count: seq<nat>, s: seq<byte>, n: int)
    requires |count| == 256
  {
    && |s| == n - 2
    && (forall k :: 0 <= k < |s| ==> 2 <= s[k] < n)
    && (forall v: byte :: 2 <= v < n ==> v in s)
    && (forall a, b :: 0 <= a < b < |s| ==> Before(count, s[a] as int, s[b] as int))
  }

  /** tbl lists 0, 1 and then all other labels, the largest constructs first. */
  ghost predicate Sorted(count: seq<nat>, tbl: seq<byte>)
    requires |count| == 256
  {
    |tbl| == 256 && tbl[0] == 0 && tbl[1] == 1 && Ranking(count, tbl[2..], 256)
  }

  lemma RankingInsert(count: seq<nat>, s: seq<byte>, n: int, k: nat)
    requires |count| == 256 && 2 <= n < 256 && Ranking(count, s, n) && k <= |s|
    requires 0 < k ==> count[s[k - 1]] >= count[n]
    requires k < |s| ==> count[s[k]] < count[n]
    ensures Ranking(count, s[..k] + [n] + s[k..], n + 1)
  {
    var s' := s[..k] + [n] + s[k..];
    forall v: byte | 2 <= v < n + 1
      ensures v in s'
    {
      if v == n {
        assert s'[k] == v;
      } else {
        assert v in s;
        var j :| 0 <= j < |s| && s[j] == v;
        assert s'[if j < k then j else j + 1] == s[j];
      }
    }
    forall a, b | 0 <= a < b < |s'|
      ensures Before(count, s'[a] as int, s'[b] as int)
    {
      if a < k - 1 {
        assert Before(count, s[a] as int, s[k - 1] as int);
      }
      if k < b - 1 {
        assert Before(count, s[k] as int, s[b - 1] as int);
      }
    }
  }

  lemma RankingInside(count: seq<nat>, s: seq<byte>, n: int)
    requires |count| == 256 && Ranking(count, s, n) && n <= 256
    ensures |s| == n - 2
  {
  }

  /** The ranked labels s stand in t from index 2 on, those from index j on moved up by one. */
  predicate GapAt(t: seq<byte>, s: seq<byte>, j: int) {
    && 2 <= j <= |s| + 2 < |t|
    && (forall i :: 0 <= i < j - 2 ==> t[i + 2] == s[i])
    && (forall i :: j - 2 <= i < |s| ==> t[i + 3] == s[i])
  }

  lemma GapFilled(t: seq<byte>, s: seq<byte>, n: byte, j: int)
    requires GapAt(t, s, j)
    ensures t[j := n][2..|s| + 3] == s[..j - 2] + [n] + s[j - 2..]
  {
  }

  lemma GapMoves(t: seq<byte>, s: seq<byte>, j: int)
    requires GapAt(t, s, j) && 2 < j
    ensures t[j - 1] == s[j - 3] && GapAt(t[j := t[j - 1]], s, j - 1)
  {
    assert t[j - 3 + 2] == s[j - 3];
  }

  /** The inner loop of Sort_labels: put label n into its place among the labels below it. */
  method InsertLabel(count: array<nat>, tbl: array<byte>, n: byte)
    requires count.Length == tbl.Length == 256 && tbl as object != count as object && 2 <= n
    requires Ranking(count[..], tbl[2..n], n)
    modifies tbl
    ensures tbl[0] == old(tbl[0]) && tbl[1] == old(tbl[1])
    ensures Ranking(count[..], tbl[2..n + 1], n + 1)
  {
    hide Ranking, GapAt;
    ghost var s := tbl[2..n];
    RankingInside(count[..], s, n);
    NoGapYet(tbl[..], s);
    var j: int := n;
    while j > 2 && count[n] > count[tbl[j - 1]]
      invariant 2 <= j <= n && tbl[0] == old(tbl[0]) && tbl[1] == old(tbl[1])
      invariant GapAt(tbl[..], s, j)
      invariant j < n ==> count[s[j - 2]] < count[n]
    {
      GapMoves(tbl[..], s, j);
      ghost var t := tbl[..];
      tbl[j] := tbl[j - 1];
      assert tbl[..] == t[j := t[j - 1]];
      j := j - 1;
    }
    if j > 2 {
      GapMoves(tbl[..], s, j);
    }
    GapFilled(tbl[..], s, n, j);
    ghost var t := tbl[..];
    tbl[j] := n;
    assert tbl[..] == t[j := n] && tbl[2..n + 1] == tbl[..][2..n + 1];
    RankingInsert(count[..], s, n, j - 2);
  }

  lemma NoGapYet(t: seq<byte>, s: seq<byte>)
    requires |s| + 2 < |t| && s == t[2..|s| + 2]
    ensures GapAt(t, s, |s| + 2)
  {
  }

  method SortLabels(wm: WildMap, tbl: array<byte>)
    requires wm.Valid() && tbl.Length == 256 && tbl != wm.data && tbl as object != wm.floodCount as object
    modifies wm.floodCount, tbl
    ensures Counted(wm) && Sorted(wm.floodCount[..], tbl[..])
  {
    hide Ranking, Counted;
    CountLabels(wm);
    ghost var count := wm.floodCount[..];
    tbl[0], tbl[1] := 0, 1;
    var n := 2;
    var i := 2;
    RankingEmpty(count, tbl[2..2]);
    while i < 256
      invariant 2 <= i == n <= 256 && tbl[0] == 0 && tbl[1] == 1
      invariant wm.floodCount[..] == count && Ranking(count, tbl[2..n], n)
      invariant Counted(wm)
    {
      InsertLabel(wm.floodCount, tbl, i as byte);
      n, i := n + 1, i + 1;
    }
    assert tbl[..][2..] == tbl[2..n];
  }

  lemma RankingEmpty(count: seq<nat>, s: seq<byte>)
    requires |count| == 256 && s == []
    ensures Ranking(count, s, 2)
  {
  }

  /** Every value occurs exactly once. */
  ghost predicate Permutation(tbl: seq<byte>) {
    && |tbl| == 256 && (forall v: byte :: v in tbl)
    && (forall a, b :: 0 <= a < b < 256 ==> tbl[a] != tbl[b])
  }

  lemma SortedPermutes(count: seq<nat>, tbl: seq<byte>)
    requires |count| == 256 && Sorted(count, tbl)
    ensures Permutation(tbl)
    ensures forall a, b :: 2 <= a < b < 256 ==> count[tbl[a]] >= count[tbl[b]]
  {
    var s := tbl[2..];
    forall v: byte
      ensures v in tbl
    {
      if v < 2 {
        assert tbl[v] == v;
      } else {
        assert v in s;
        var k :| 0 <= k < |s| && s[k] == v;
        assert tbl[k + 2] == v;
      }
    }
    forall a, b | 0 <= a < b < 256
      ensures tbl[a] != tbl[b] && (2 <= a ==> count[tbl[a]] >= count[tbl[b]])
    {
      assert 2 <= b ==> tbl[b] == s[b - 2];
      assert 2 <= a ==> tbl[a] == s[a - 2] && Before(count, s[a - 2] as int, s[b - 2] as int);
    }
  }

  /** Replace every value v on the map by f[v]. */
  method Substitute(wm: WildMap, f: array<byte>)
    requires wm.Valid() && f.Length == 256 && f != wm.data
    modifies wm.data
    ensures wm.data[..] == Mapped(old(wm.data[..]), f[..])
  {
    var todo := wm.t.n;
    while todo > 0
      invariant 0 <= todo <= wm.t.n
      invariant forall c :: 0 <= c < todo ==> wm.data[c] == old(wm.data[c])
      invariant forall c :: todo <= c < wm.t.n ==> wm.data[c] == f[old(wm.data[c])]
    {
      todo := todo - 1;
      wm.data[todo] := f[wm.data[todo]];
    }
  }

  /** Only the smallest constructs are erased. */
  ghost predicate ErasesSmallest(d: seq<byte>, f: seq<byte>)
    requires |f| == 256
  {
    forall u, v :: 2 <= u < 256 && 2 <= v < 256 && f[u] != 0 && f[v] == 0 ==> Count(d, v) <= Count(d, u)
  }

  /** del numbers the first 224 labels of tbl from 0 on, and erases the others. */
  ghost predicate CutOff(tbl: seq<byte>, del: seq<byte>) {
    && |tbl| == |del| == 256
    && forall i :: 0 <= i < 256 ==> CutAt(tbl, del, i)
  }

  ghost predicate CutAt(tbl: seq<byte>, del: seq<byte>, i: nat)
    requires |tbl| == |del| == 256 && i < 256
  {
    del[tbl[i]] as int == if i < 224 then i else 0
  }

  ghost function PlaceOf(tbl: seq<byte>, v: byte): (i: nat)
    requires Permutation(tbl)
    ensures i < 256 && tbl[i] == v
  {
    assert v in tbl;
    var i :| 0 <= i < 256 && tbl[i] == v;
    i
  }

  lemma CutOffRenumbers(count: seq<nat>, tbl: seq<byte>, del: seq<byte>, d: seq<byte>)
    requires |count| == 256 && Sorted(count, tbl) && CutOff(tbl, del)
    requires forall v :: 0 <= v < 256 ==> count[v] == Count(d, v)
    ensures Renumbering(del) && KeepsTop(d, del, tbl[2], tbl[255]) && ErasesSmallest(d, del)
  {
    hide Sorted, CellsWith, Count;
    SortedPermutes(count, tbl);
    SortedStart(count, tbl);
    assert CutAt(tbl, del, 0) && CutAt(tbl, del, 1) && CutAt(tbl, del, 2) && CutAt(tbl, del, 255);
    forall v | 0 <= v < 256
      ensures del[v] as int == if PlaceOf(tbl, v) < 224 then PlaceOf(tbl, v) else 0
    {
      assert CutAt(tbl, del, PlaceOf(tbl, v));
    }
    forall u, v | 0 <= u < v < 256 && del[u] == del[v]
      ensures del[u] == 0
    {
      assert tbl[PlaceOf(tbl, u)] == u && tbl[PlaceOf(tbl, v)] == v;
    }
    forall v | 2 <= v < 256
      ensures Count(d, v) <= Count(d, tbl[2] as int)
    {
      assert 2 <= PlaceOf(tbl, v);
    }
    forall u, v | 2 <= u < 256 && 2 <= v < 256 && del[u] != 0 && del[v] == 0
      ensures Count(d, v) <= Count(d, u)
    {
      assert 2 <= PlaceOf(tbl, u) < PlaceOf(tbl, v);
    }
  }

  lemma SortedStart(count: seq<nat>, tbl: seq<byte>)
    requires |count| == 256 && Sorted(count, tbl)
    ensures tbl[0] == 0 && tbl[1] == 1 && forall i :: 2 <= i < 256 ==> tbl[i] >= 2
  {
    assert forall i :: 2 <= i < 256 ==> tbl[i] == tbl[2..][i - 2];
  }

  /** Label_map when the labels have run out: number the constructs anew by size, and erase those beyond
      number 223. */
  method Recycle(wm: WildMap, tbl: array<byte>, del: array<byte>)
    requires wm.Valid() && tbl.Length == del.Length == 256 && tbl != del
    requires tbl != wm.data && del != wm.data
    requires tbl as object != wm.floodCount as object && del as object != wm.floodCount as object
    modifies wm.data, wm.floodCount, tbl, del
    ensures wm.data[..] == Mapped(old(wm.data[..]), del[..])
    ensures Renumbering(del[..]) && KeepsTop(old(wm.data[..]), del[..], tbl[2], tbl[255])
    ensures ErasesSmallest(old(wm.data[..]), del[..])
  {
    hide Sorted, Count, Renumbering, KeepsTop, ErasesSmallest, Permutation;
    SortLabels(wm, tbl);
    ghost var count := wm.floodCount[..];
    SortedPermutes(count, tbl[..]);
    FillDel(tbl, del);
    CutOffRenumbers(count, tbl[..], del[..], wm.data[..]);
    Substitute(wm, del);
  }

  method FillDel(tbl: array<byte>, del: array<byte>)
    requires tbl.Length == del.Length == 256 && tbl != del && Permutation(tbl[..])
    modifies del
    ensures CutOff(tbl[..], del[..])
  {
    hide Permutation;
    PermutationApart(tbl[..]);
    var i := 0;
    while i < 224
      invariant 0 <= i <= 224
      invariant forall k :: 0 <= k < i ==> del[tbl[k]] as int == if k < 224 then k else 0
    {
      del[tbl[i]] := i as byte;
      i := i + 1;
    }
    i := 224;
    while i < 256
      invariant 224 <= i <= 256
      invariant forall k :: 0 <= k < i ==> del[tbl[k]] as int == if k < 224 then k else 0
    {
      del[tbl[i]] := 0;
      i := i + 1;
    }
  }

  lemma PermutationApart(tbl: seq<byte>)
    requires Permutation(tbl)
    ensures forall a, b :: 0 <= a < b < 256 ==> tbl[a] != tbl[b]
  {
  }

  /** Label_map: label the constructs of the cells with the value `kind`.  Cells of one construct get the
      same value, different constructs different ones, except that constructs are erased (set to 0) if and
      only if there are more than 254 of them; the largest one is never erased. */
  method LabelMap(wm: WildMap, kind: byte)
    requires wm.Valid()
    modifies wm, wm.data, wm.floodCount
    ensures Labelled(wm.t, CellsWith(old(wm.data[..]), kind as int), wm.data[..])
    ensures Erasure(wm.t, CellsWith(old(wm.data[..]), kind as int), wm.data[..])
  {
    hide Labelling, Erasing, Labelled, Erasure, CellsWith, Flooded, Renumbering, KeepsTop, ErasesSmallest;
    ghost var s := CellsWith(wm.data[..], kind as int);
    var tbl := new byte[256](_ => 0);
    var del := new byte[256](_ => 0);
    tbl[kind] := 1;
    Substitute(wm, tbl);
    Begin(wm.t, old(wm.data[..]), kind, tbl[..]);
    wm.floodTrigger := 1;
    wm.floodMarker := 2;
    ghost var recycled := false;
    var todo := wm.t.n;
    while todo > 0
      invariant 0 <= todo <= wm.t.n && wm.floodTrigger == 1 && 2 <= wm.floodMarker <= 256
      invariant Labelling(wm.t, s, wm.data[..], todo, wm.floodMarker)
      invariant Erasing(wm.t, s, wm.data[..], wm.floodMarker, recycled)
    {
      todo := todo - 1;
      ghost var d := wm.data[..];
      if wm.data[todo] as int == wm.floodTrigger {
        if wm.floodMarker >= 256 {
          Recycle(wm, tbl, del);
          LabelRenumber(wm.t, s, d, del[..], todo + 1, 256);
          EraseRenumber(wm.t, s, d, todo, 256, recycled, del[..], tbl[2], tbl[255]);
          wm.floodMarker := 224;
          recycled := true;
          d := wm.data[..];
        }
        FloodMap(wm, todo);
        LabelFlood(wm.t, s, d, todo, wm.floodMarker, wm.data[..]);
        EraseFlood(wm.t, s, d, todo, wm.floodMarker, recycled, wm.data[..]);
        wm.floodMarker := wm.floodMarker + 1;
      } else {
        LabelSkip(wm.t, s, d, todo, wm.floodMarker);
      }
    }
    LabelEnd(wm.t, s, wm.data[..], wm.floodMarker);
    EraseEnd(wm.t, s, wm.data[..], wm.floodMarker, recycled);
  }

  lemma Begin(t: Torus, d0: seq<byte>, kind: byte, tbl: seq<byte>)
    requires t.Valid() && |d0| == t.n && |tbl| == 256
    requires forall v :: 0 <= v < 256 ==> tbl[v] == if v == kind then 1 else 0
    ensures Labelling(t, CellsWith(d0, kind as int), Mapped(d0, tbl), t.n, 2)
    ensures Erasing(t, CellsWith(d0, kind as int), Mapped(d0, tbl), 2, false)
  {
    var s := CellsWith(d0, kind as int);
    LabelStart(t, s, Mapped(d0, tbl));
    EraseStart(t, s, Mapped(d0, tbl));
  }
}
