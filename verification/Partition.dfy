/** Partition_map of wildmap.c: remove the inaccessible holes, and fill up to the wanted ratio by removing
    small wall constructs. */
module Partition {
  import opened HelixMap
  import opened FloodTheory
  import opened LabelTheory
  import opened LabelErasure
  import opened WildMap
  import opened Labels

  ghost predicate AllJoined(t: Torus, s: set<int>)
    requires t.Valid()
  {
    forall i, j :: i in s && j in s ==> Joined(t, s, i, j)
  }

  ghost function Others(t: Torus, s: set<int>): set<int> {
    AllCells(t) - s
  }

  /** A connected region stays connected when whole constructs of the other cells are added to it. */
  lemma RegionGrows(t: Torus, region: set<int>, zeros: set<int>)
    requires t.Valid() && AllJoined(t, region) && region != {} && region <= zeros <= AllCells(t)
    requires forall i, j :: i in zeros && Joined(t, Others(t, region), i, j) ==> j in zeros
    ensures AllJoined(t, zeros)
  {
    hide Joined;
    var r :| r in region;
    forall i | i in zeros
      ensures Joined(t, zeros, r, i)
    {
      ReachesRegion(t, region, zeros, r, i);
    }
    forall i, j | i in zeros && j in zeros
      ensures Joined(t, zeros, i, j)
    {
      JoinedEquivalence(t, zeros, r, i, i);
      JoinedEquivalence(t, zeros, i, r, j);
    }
  }

  /** The construct of i among the other cells does not fill the torus, so it is next to the region. */
  lemma ReachesRegion(t: Torus, region: set<int>, zeros: set<int>, r: int, i: int)
    requires t.Valid() && AllJoined(t, region) && r in region && region <= zeros <= AllCells(t) && i in zeros
    requires forall i, j :: i in zeros && Joined(t, Others(t, region), i, j) ==> j in zeros
    ensures Joined(t, zeros, r, i)
  {
    hide Joined;
    var others := Others(t, region);
    if i in region {
      JoinedMore(t, region, zeros, r, i);
    } else {
      var x, y := TouchesRegion(t, region, r, i);
      forall z | z in zeros && Joined(t, others, i, z)
        ensures Joined(t, zeros, i, z)
      {
        InZeros(t, region, zeros, i, z);
      }
      assert x in zeros;
      JoinedMore(t, region, zeros, r, y);
      JoinedEquivalence(t, zeros, i, x, y);
      NearSymmetric(t, x, y);
      JoinedEquivalence(t, zeros, i, y, y);
      JoinedEquivalence(t, zeros, r, y, i);
    }
  }

  lemma InZeros(t: Torus, region: set<int>, zeros: set<int>, i: int, z: int)
    requires t.Valid() && region <= zeros <= AllCells(t) && i in zeros && Joined(t, Others(t, region), i, z)
    requires forall i, j :: i in zeros && Joined(t, Others(t, region), i, j) ==> j in zeros
    ensures Joined(t, zeros, i, z)
  {
    hide Joined;
    var others := Others(t, region);
    var u := set x | x in others && x in zeros && Joined(t, zeros, i, x);
    JoinedEquivalence(t, zeros, i, i, i);
    JoinedInside(t, others, i, z);
    JoinedFirst(t, others, i, z);
    forall x, y | x in u && y in others && t.Near(x, y)
      ensures y in u
    {
      JoinedEquivalence(t, others, x, x, y);
      JoinedEquivalence(t, zeros, i, x, y);
    }
    JoinedStays(t, others, u, i, z);
  }

  lemma JoinedFirst(t: Torus, s: set<int>, i: int, j: int)
    requires t.Valid() && Joined(t, s, i, j)
    ensures i in s
  {
  }

  /** Some cell of the construct of i is next to a cell of the region. */
  lemma TouchesRegion(t: Torus, region: set<int>, r: int, i: int) returns (x: int, y: int)
    requires t.Valid() && r in region && region <= AllCells(t) && t.Has(i) && i !in region
    ensures Joined(t, Others(t, region), i, x) && y in region && t.Near(x, y)
  {
    hide Joined;
    var others := Others(t, region);
    var u := Construct(t, others, i);
    JoinedEquivalence(t, others, i, i, i);
    if a, b :| a in u && b in region && t.Near(a, b) {
      x, y := a, b;
    } else {
      forall a, b | a in u && b in AllCells(t) && t.Near(a, b)
        ensures b in u
      {
        JoinedEquivalence(t, others, i, a, b);
      }
      TorusConnected(t, i, r);
      JoinedStays(t, AllCells(t), u, i, r);
      assert false;
    }
  }

  /** The largest open region if it has more cells than those without a label, and those otherwise. */
  ghost predicate MainRegion(t: Torus, open: set<int>, unkept: set<int>, region: set<int>)
    requires t.Valid()
  {
    && (forall c :: c in open ==> |Construct(t, open, c)| <= |region|)
    && (if exists c :: c in open && |Construct(t, open, c)| > |unkept|
        then exists c :: c in open && region == Construct(t, open, c)
        else region == unkept)
  }

  /** The cells that labelling leaves without a label: all that are not open, and only those if there
      are labels enough. */
  ghost predicate Unkept(t: Torus, open: set<int>, unkept: set<int>)
    requires t.Valid()
  {
    Others(t, open) <= unkept <= AllCells(t) && (unkept == Others(t, open) <==> !TooMany(t, open))
  }

  ghost predicate IsMarker(d: seq<byte>, marker: int) {
    && (marker == 0 || 2 <= marker < 256)
    && (forall v :: 0 <= v < 256 && v != 1 ==> Count(d, v) <= Count(d, marker))
    && (marker != 0 ==> Count(d, 0) < Count(d, marker))
  }

  lemma LabelledIsConstruct(t: Torus, s: set<int>, d: seq<byte>, e: int)
    requires t.Valid() && Labelled(t, s, d) && t.Has(e) && d[e] >= 2
    ensures e in s && CellsWith(d, d[e] as int) == Construct(t, s, e)
  {
    hide Joined;
    forall x
      ensures x in CellsWith(d, d[e] as int) <==> x in Construct(t, s, e)
    {
      if x in CellsWith(d, d[e] as int) {
        assert Joined(t, s, e, x);
        JoinedEquivalence(t, s, e, x, x);
      }
    }
  }

  lemma RegionSize(t: Torus, open: set<int>, d: seq<byte>, marker: int, c: int)
    requires t.Valid() && Labelled(t, open, d) && Erasure(t, open, d) && IsMarker(d, marker) && c in open
    ensures |Construct(t, open, c)| <= Count(d, marker)
  {
    hide Joined, Construct, CellsWith;
    var e := c;
    if d[c] == 0 {
      assert Erased(open, d, c);
      e :| 0 <= e < |d| && d[e] >= 2 && |Construct(t, open, c)| <= |Construct(t, open, e)|;
    }
    LabelledIsConstruct(t, open, d, e);
    assert Count(d, d[e] as int) <= Count(d, marker);
  }

  lemma ChooseRegion(t: Torus, open: set<int>, d: seq<byte>, marker: int)
    requires t.Valid() && Labelled(t, open, d) && Erasure(t, open, d) && IsMarker(d, marker)
    ensures MainRegion(t, open, CellsWith(d, 0), CellsWith(d, marker))
    ensures CellsWith(d, marker) != {}
  {
    hide Joined, Construct, Labelled, Erasure;
    forall c | c in open
      ensures |Construct(t, open, c)| <= Count(d, marker)
    {
      RegionSize(t, open, d, marker, c);
    }
    NoOnes(t, open, d);
    assert 0 in CellsWith(d, d[0] as int) && 0 < Count(d, d[0] as int);
    if marker != 0 {
      var c :| c in CellsWith(d, marker);
      LabelledIsConstruct(t, open, d, c);
    }
  }

  lemma NoOnes(t: Torus, s: set<int>, d: seq<byte>)
    requires t.Valid() && Labelled(t, s, d)
    ensures |d| == t.n && forall c :: t.Has(c) ==> d[c] != 1
  {
  }

  lemma UnkeptCells(t: Torus, open: set<int>, d: seq<byte>)
    requires t.Valid() && Labelled(t, open, d) && Erasure(t, open, d)
    ensures Unkept(t, open, CellsWith(d, 0))
  {
    hide Joined, Construct, TooMany;
    var unkept := CellsWith(d, 0);
    if TooMany(t, open) {
      var c :| Erased(open, d, c);
      assert c in unkept;
    } else {
      forall c
        ensures c in unkept <==> c in Others(t, open)
      {
        assert !Erased(open, d, c);
      }
    }
  }

  /** A construct is connected. */
  lemma ConstructJoined(t: Torus, s: set<int>, c: int)
    requires t.Valid()
    ensures AllJoined(t, Construct(t, s, c))
  {
    hide Joined;
    var u := Construct(t, s, c);
    forall i, j | i in u && j in u
      ensures Joined(t, u, i, j)
    {
      JoinedInConstruct(t, s, c, i);
      JoinedInConstruct(t, s, c, j);
      JoinedEquivalence(t, u, c, i, j);
      JoinedEquivalence(t, u, i, c, j);
    }
  }

  lemma JoinedInConstruct(t: Torus, s: set<int>, c: int, i: int)
    requires t.Valid() && i in Construct(t, s, c)
    ensures Joined(t, Construct(t, s, c), c, i)
  {
    hide Joined;
    var u := Construct(t, s, c);
    var v := set x | x in u && Joined(t, u, c, x);
    JoinedFirst(t, s, c, i);
    JoinedEquivalence(t, s, c, c, c);
    JoinedEquivalence(t, u, c, c, c);
    forall x, y | x in v && y in s && t.Near(x, y)
      ensures y in v
    {
      JoinedEquivalence(t, s, c, x, y);
      JoinedEquivalence(t, u, c, x, y);
    }
    JoinedStays(t, s, v, c, i);
  }

  /** The open region outnumbers the cells without a label. */
  ghost predicate Dominant(t: Torus, open: set<int>, unkept: set<int>)
    requires t.Valid()
  {
    exists c :: c in open && |Construct(t, open, c)| > |unkept|
  }

  /** After erasing whole constructs of the other cells, the cells with value 0 are connected if the
      region was. */
  lemma ZerosJoined(t: Torus, region: set<int>, d: seq<byte>)
    requires t.Valid() && Labelled(t, Others(t, region), d) && region != {} && region <= AllCells(t)
    ensures region <= CellsWith(d, 0)
    ensures AllJoined(t, region) ==> AllJoined(t, CellsWith(d, 0))
  {
    hide Joined;
    if AllJoined(t, region) {
      forall i, j | i in CellsWith(d, 0) && Joined(t, Others(t, region), i, j)
        ensures j in CellsWith(d, 0)
      {
        JoinedInside(t, Others(t, region), i, j);
        JoinedFirst(t, Others(t, region), i, j);
      }
      RegionGrows(t, region, CellsWith(d, 0));
    }
  }

  /** Erasing labels keeps a labelling. */
  lemma LabelledErase(t: Torus, s: set<int>, d: seq<byte>, del: seq<byte>)
    requires t.Valid() && Labelled(t, s, d) && |del| == 256 && forall v :: 0 <= v < 256 ==> del[v] == v || del[v] == 0
    ensures Labelled(t, s, Mapped(d, del))
  {
    hide Joined;
  }

  // Choosing the constructs to erase.

  /** The cells in the constructs ranked i and lower. */
  ghost function Tail(count: seq<nat>, tbl: seq<byte>, i: int): nat
    requires |count| == |tbl| == 256 && 0 <= i <= 256
    decreases 256 - i
  {
    if i == 256 then 0 else count[tbl[i]] + Tail(count, tbl, i + 1)
  }

  /** The smallest constructs that together exceed the excess are those ranked from cut on (or all
      constructs, if even they do not exceed it). */
  ghost predicate IsCut(count: seq<nat>, tbl: seq<byte>, excess: int, cut: int)
    requires |count| == |tbl| == 256
  {
    && 2 <= cut <= 256 && (cut == 2 || Tail(count, tbl, cut) > excess)
    && forall i :: cut < i <= 256 ==> Tail(count, tbl, i) <= excess
  }

  /** The construct at the cut goes, and of the smaller ones those that are less than half its size or
      without which too few cells would go. */
  ghost predicate Goes(count: seq<nat>, tbl: seq<byte>, excess: int, cut: int, j: int)
    requires |count| == |tbl| == 256 && 0 <= j < 256 && 2 <= cut <= 256
  {
    && cut <= j
    && (j == cut || Tail(count, tbl, cut) - count[tbl[j]] <= excess || 2 * count[tbl[j]] < count[tbl[cut]])
  }

  ghost predicate DelAt(count: seq<nat>, tbl: seq<byte>, excess: int, cut: int, del: seq<byte>, j: int)
    requires |count| == |tbl| == |del| == 256 && 0 <= j < 256 && 2 <= cut <= 256
  {
    del[tbl[j]] == if Goes(count, tbl, excess, cut, j) then 0 else tbl[j]
  }

  method ChooseErased(count: array<nat>, tbl: array<byte>, del: array<byte>, excess: int) returns (i: int)
    requires count.Length == tbl.Length == del.Length == 256 && tbl != del && del as object != count as object
    requires Permutation(tbl[..])
    modifies del
    ensures IsCut(count[..], tbl[..], excess, i)
    ensures forall j :: 0 <= j < 256 ==> DelAt(count[..], tbl[..], excess, i, del[..], j)
  {
    hide Permutation;
    PermutationApart(tbl[..]);
    i := 0;
    while i < 256
      invariant 0 <= i <= 256
      invariant forall k :: 0 <= k < i ==> del[tbl[k]] == tbl[k]
    {
      del[tbl[i]] := tbl[i];
      i := i + 1;
    }
    var sum := 0;
    i := 256;
    while i > 2 && sum <= excess
      invariant 2 <= i <= 256 && sum == Tail(count[..], tbl[..], i)
      invariant forall k :: i < k <= 256 ==> Tail(count[..], tbl[..], k) <= excess
    {
      i := i - 1;
      sum := sum + count[tbl[i]];
    }
    if i < 256 {
      EraseTail(count, tbl, del, excess, sum, i);
    }
  }

  method EraseTail(count: array<nat>, tbl: array<byte>, del: array<byte>, excess: int, sum: int, i: int)
    requires count.Length == tbl.Length == del.Length == 256 && tbl != del && del as object != count as object
    requires Permutation(tbl[..]) && 2 <= i < 256 && sum == Tail(count[..], tbl[..], i)
    requires forall k :: 0 <= k < 256 ==> del[tbl[k]] == tbl[k]
    modifies del
    ensures forall j :: 0 <= j < 256 ==> DelAt(count[..], tbl[..], excess, i, del[..], j)
  {
    hide Permutation, Tail;
    PermutationApart(tbl[..]);
    var j := i + 1;
    while j < 256
      invariant i < j <= 256
      invariant forall k :: i < k < j ==>
                  del[tbl[k]] == if Goes(count[..], tbl[..], excess, i, k) then 0 else tbl[k]
      invariant forall k :: 0 <= k < 256 && !(i < k < j) ==> del[tbl[k]] == tbl[k]
    {
      if !(sum - count[tbl[j]] > excess && 2 * count[tbl[j]] >= count[tbl[i]]) {
        del[tbl[j]] := 0;
      }
      j := j + 1;
    }
    del[tbl[i]] := 0;
  }

  /** The choice of marker in Partition_map: the label with the most cells. */
  method FindMarker(wm: WildMap) returns (marker: int)
    requires wm.Valid()
    modifies wm.floodCount
    ensures IsMarker(wm.data[..], marker)
  {
    hide Count;
    CountLabels(wm);
    marker := 0;
    var i := 2;
    while i < 256
      invariant 2 <= i <= 256 && Counted(wm) && (marker == 0 || 2 <= marker < i)
      invariant forall v :: 0 <= v < i && v != 1 ==> Count(wm.data[..], v) <= Count(wm.data[..], marker)
      invariant marker != 0 ==> Count(wm.data[..], 0) < Count(wm.data[..], marker)
    {
      if wm.floodCount[i] > wm.floodCount[marker] {
        marker := i;
      }
      i := i + 1;
    }
  }

  /** The first half of Partition_map: keep only the main region, as the cells with value 1. */
  method KeepRegion(wm: WildMap) returns (ghost region: set<int>, ghost unkept: set<int>)
    requires wm.Valid()
    modifies wm, wm.data, wm.floodCount
    ensures Unkept(wm.t, CellsWith(old(wm.data[..]), 0), unkept)
    ensures MainRegion(wm.t, CellsWith(old(wm.data[..]), 0), unkept, region)
    ensures region != {} && region <= AllCells(wm.t) && Others(wm.t, region) == CellsWith(wm.data[..], 0)
  {
    hide Labelled, Erasure, CellsWith, IsMarker, MainRegion, Unkept;
    ghost var open := CellsWith(wm.data[..], 0);
    LabelMap(wm, 0);
    ghost var d := wm.data[..];
    var marker := FindMarker(wm);
    region, unkept := CellsWith(d, marker), CellsWith(d, 0);
    ChooseRegion(wm.t, open, d, marker);
    UnkeptCells(wm.t, open, d);
    MarkerRange(d, marker);
    var tbl := new byte[256](_ => 0);
    tbl[marker] := 1;
    Substitute(wm, tbl);
    RegionCells(wm.t, d, marker, tbl[..]);
  }

  lemma MarkerRange(d: seq<byte>, marker: int)
    requires IsMarker(d, marker)
    ensures 0 <= marker < 256
  {
  }

  lemma RegionCells(t: Torus, d: seq<byte>, marker: int, tbl: seq<byte>)
    requires |d| == t.n && |tbl| == 256 && forall v :: 0 <= v < 256 ==> tbl[v] == if v == marker then 1 else 0
    ensures CellsWith(d, marker) <= AllCells(t)
    ensures Others(t, CellsWith(d, marker)) == CellsWith(Mapped(d, tbl), 0)
  {
  }

  /** The map d comes from the labelled map by erasing the constructs that Goes names. */
  ghost predicate FilledUp(labels: seq<byte>, d: seq<byte>, n: nat, target: int) {
    exists count, tbl, del, excess, cut ::
      Filling(count, tbl, del, excess, cut, labels, d) && excess == n - count[0] - target
  }

  ghost predicate Filling(count: seq<nat>, tbl: seq<byte>, del: seq<byte>, excess: int, cut: int,
                          labels: seq<byte>, d: seq<byte>)
  {
    && |count| == |tbl| == |del| == 256 && Sorted(count, tbl)
    && (forall v :: 0 <= v < 256 ==> count[v] == Count(labels, v))
    && IsCut(count, tbl, excess, cut)
    && (forall j :: 0 <= j < 256 ==> DelAt(count, tbl, excess, cut, del, j))
    && d == Mapped(labels, del)
  }

  lemma FillsUp(count: seq<nat>, tbl: seq<byte>, del: seq<byte>, excess: int, cut: int,
                labels: seq<byte>, d: seq<byte>, n: nat, target: int)
    requires |count| == |del| == 256 && Sorted(count, tbl)
    requires forall v :: 0 <= v < 256 ==> count[v] == Count(labels, v)
    requires IsCut(count, tbl, excess, cut) && excess == n - count[0] - target
    requires forall j :: 0 <= j < 256 ==> DelAt(count, tbl, excess, cut, del, j)
    requires d == Mapped(labels, del)
    ensures FilledUp(labels, d, n, target)
  {
    hide Tail, Ranking, Count, DelAt, Mapped;
    assert Filling(count, tbl, del, excess, cut, labels, d);
  }

  /** Partition_map.  `target` is the number of wall cells that the fill ratio asks for. */
  method PartitionMap(wm: WildMap, target: int)
    returns (ghost region: set<int>, ghost unkept: set<int>, ghost labels: seq<byte>)
    requires wm.Valid()
    modifies wm, wm.data, wm.floodCount
    ensures Unkept(wm.t, CellsWith(old(wm.data[..]), 0), unkept)
    ensures MainRegion(wm.t, CellsWith(old(wm.data[..]), 0), unkept, region)
    // The constructs of the other cells are labelled, and the smallest ones are erased.
    ensures Labelled(wm.t, Others(wm.t, region), labels) && Erasure(wm.t, Others(wm.t, region), labels)
    ensures FilledUp(labels, wm.data[..], wm.t.n, target)
    // Every construct of the other cells is erased as a whole or keeps a label of its own.
    ensures Labelled(wm.t, Others(wm.t, region), wm.data[..])
    ensures region <= CellsWith(wm.data[..], 0)
    // The open cells left are connected if the region is, and it is if it outnumbers the unlabelled cells.
    ensures AllJoined(wm.t, region) ==> AllJoined(wm.t, CellsWith(wm.data[..], 0))
    ensures Dominant(wm.t, CellsWith(old(wm.data[..]), 0), unkept) ==> AllJoined(wm.t, CellsWith(wm.data[..], 0))
  {
    hide Labelled, Erasure, CellsWith, MainRegion, Unkept, Dominant, Sorted, Permutation, DelAt, Joined, FilledUp,
         Count;
    ghost var open := CellsWith(wm.data[..], 0);
    region, unkept := KeepRegion(wm);
    LabelMap(wm, 0);
    labels := wm.data[..];
    var tbl := new byte[256](_ => 0);
    var del := new byte[256](_ => 0);
    SortLabels(wm, tbl);
    SortedPermutes(wm.floodCount[..], tbl[..]);
    var excess := wm.t.n - wm.floodCount[0] - target;
    var i := ChooseErased(wm.floodCount, tbl, del, excess);
    DelErases(wm.floodCount[..], tbl[..], excess, i, del[..]);
    LabelledErase(wm.t, Others(wm.t, region), labels, del[..]);
    if i < 256 {
      Substitute(wm, del);
    } else {
      assert wm.data[..] == Mapped(labels, del[..]);
    }
    FillsUp(wm.floodCount[..], tbl[..], del[..], excess, i, labels, wm.data[..], wm.t.n, target);
    ZerosJoined(wm.t, region, wm.data[..]);
    DominantJoined(wm.t, open, unkept, region);
  }

  lemma DelErases(count: seq<nat>, tbl: seq<byte>, excess: int, cut: int, del: seq<byte>)
    requires |count| == |del| == 256 && Permutation(tbl) && IsCut(count, tbl, excess, cut)
    requires forall j :: 0 <= j < 256 ==> DelAt(count, tbl, excess, cut, del, j)
    ensures forall v :: 0 <= v < 256 ==> del[v] == v || (del[v] == 0 && cut < 256)
  {
    hide Tail;
    forall v | 0 <= v < 256
      ensures del[v] == v || (del[v] == 0 && cut < 256)
    {
      assert DelAt(count, tbl, excess, cut, del, PlaceOf(tbl, v));
    }
  }

  lemma DominantJoined(t: Torus, open: set<int>, unkept: set<int>, region: set<int>)
    requires t.Valid() && MainRegion(t, open, unkept, region)
    ensures Dominant(t, open, unkept) ==> AllJoined(t, region)
  {
    hide Joined;
    if Dominant(t, open, unkept) {
      var c :| c in open && region == Construct(t, open, c);
      ConstructJoined(t, open, c);
    }
  }
}
