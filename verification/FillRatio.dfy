/** Whether Partition_map of wildmap.c removes enough small constructs for the wanted fill ratio. */
module FillRatio {
  import opened Basics
  import opened HelixMap
  import opened FloodTheory
  import opened LabelTheory
  import opened LabelErasure
  import opened Labels
  import opened Partition

  /** The cells in the constructs ranked k and lower that are removed. */
  ghost function Gone(count: seq<nat>, tbl: seq<byte>, excess: int, cut: int, k: int): nat
    requires |count| == |tbl| == 256 && 2 <= cut <= k <= 256
    decreases 256 - k
  {
    if k == 256 then 0
    else (if Goes(count, tbl, excess, cut, k) then count[tbl[k]] else 0) + Gone(count, tbl, excess, cut, k + 1)
  }

  /** The ranks below the cut whose constructs stay although they are small. */
  ghost function Spared(count: seq<nat>, tbl: seq<byte>, excess: int, cut: int): set<int>
    requires |count| == |tbl| == 256 && 2 <= cut <= 256
  {
    set j | cut <= j < 256 && !Goes(count, tbl, excess, cut, j)
  }

  lemma {:induction false} NoneSpared(count: seq<nat>, tbl: seq<byte>, excess: int, cut: int, k: int)
    requires |count| == |tbl| == 256 && 2 <= cut <= k <= 256
    requires forall j :: k <= j < 256 ==> j !in Spared(count, tbl, excess, cut)
    ensures Gone(count, tbl, excess, cut, k) == Tail(count, tbl, k)
    decreases 256 - k
  {
    hide Goes;
    if k < 256 {
      assert k !in Spared(count, tbl, excess, cut);
      NoneSpared(count, tbl, excess, cut, k + 1);
    }
  }

  lemma {:induction false} OneSpared(count: seq<nat>, tbl: seq<byte>, excess: int, cut: int, k: int, a: int)
    requires |count| == |tbl| == 256 && 2 <= cut <= k <= a < 256 && a in Spared(count, tbl, excess, cut)
    ensures Gone(count, tbl, excess, cut, k) + count[tbl[a]] <= Tail(count, tbl, k)
    ensures (forall j :: k <= j < 256 && j in Spared(count, tbl, excess, cut) ==> j == a) ==>
              Gone(count, tbl, excess, cut, k) + count[tbl[a]] == Tail(count, tbl, k)
    decreases a - k
  {
    hide Goes;
    if k < a {
      OneSpared(count, tbl, excess, cut, k + 1, a);
      assert k in Spared(count, tbl, excess, cut) || Goes(count, tbl, excess, cut, k);
    } else {
      GoneLess(count, tbl, excess, cut, k + 1);
      if forall j :: k <= j < 256 && j in Spared(count, tbl, excess, cut) ==> j == a {
        NoneSpared(count, tbl, excess, cut, k + 1);
      }
    }
  }

  lemma {:induction false} GoneLess(count: seq<nat>, tbl: seq<byte>, excess: int, cut: int, k: int)
    requires |count| == |tbl| == 256 && 2 <= cut <= k <= 256
    ensures Gone(count, tbl, excess, cut, k) <= Tail(count, tbl, k)
    decreases 256 - k
  {
    hide Goes;
    if k < 256 {
      GoneLess(count, tbl, excess, cut, k + 1);
    }
  }

  lemma {:induction false} TwoSpared(count: seq<nat>, tbl: seq<byte>, excess: int, cut: int, k: int, a: int, b: int)
    requires |count| == |tbl| == 256 && 2 <= cut <= k <= a < b < 256
    requires a in Spared(count, tbl, excess, cut) && b in Spared(count, tbl, excess, cut)
    ensures Gone(count, tbl, excess, cut, k) + count[tbl[a]] + count[tbl[b]] <= Tail(count, tbl, k)
    decreases a - k
  {
    hide Goes;
    if k < a {
      TwoSpared(count, tbl, excess, cut, k + 1, a, b);
    } else {
      OneSpared(count, tbl, excess, cut, k + 1, b);
    }
  }

  /** More than the excess is removed if and only if at most one small construct is spared: each is spared as
      if it were the only one. */
  lemma EnoughGoes(count: seq<nat>, tbl: seq<byte>, excess: int, cut: int)
    requires |count| == |tbl| == 256 && IsCut(count, tbl, excess, cut) && Tail(count, tbl, cut) > excess
    ensures Gone(count, tbl, excess, cut, cut) > excess <==> |Spared(count, tbl, excess, cut)| <= 1
  {
    hide Tail, Gone;
    var s := Spared(count, tbl, excess, cut);
    if s == {} {
      NoneSpared(count, tbl, excess, cut, cut);
    } else {
      var a :| a in s;
      if s == {a} {
        OneSpared(count, tbl, excess, cut, cut, a);
      } else {
        AnotherOne(s, a);
        var b :| b in s && b != a;
        TwoAreTooMany(count, tbl, excess, cut, if a < b then a else b, if a < b then b else a);
        SubsetSize({a, b}, s);
      }
    }
  }

  lemma AnotherOne(s: set<int>, a: int)
    requires a in s
    ensures s == {a} || exists b :: b in s && b != a
  {
    if forall b :: b in s ==> b == a {
      assert s == {a};
    }
  }

  /** Two spared constructs together are at least as big as the one at the cut, and that one would do. */
  lemma TwoAreTooMany(count: seq<nat>, tbl: seq<byte>, excess: int, cut: int, a: int, b: int)
    requires |count| == |tbl| == 256 && IsCut(count, tbl, excess, cut) && a < b
    requires a in Spared(count, tbl, excess, cut) && b in Spared(count, tbl, excess, cut)
    ensures Gone(count, tbl, excess, cut, cut) <= excess
  {
    hide Gone;
    TwoSpared(count, tbl, excess, cut, cut, a, b);
    assert Tail(count, tbl, cut) == count[tbl[cut]] + Tail(count, tbl, cut + 1);
    assert Tail(count, tbl, cut + 1) <= excess;
  }

  // ---------------------------------------------------------------- the cells of the map

  /** Cell c belongs to a construct ranked k or lower that is removed. */
  ghost predicate CellGoes(count: seq<nat>, tbl: seq<byte>, excess: int, cut: int, k: int, labels: seq<byte>, c: int)
    requires |count| == |tbl| == 256 && 2 <= cut <= k <= 256
  {
    0 <= c < |labels| && exists j :: k <= j < 256 && tbl[j] == labels[c] && Goes(count, tbl, excess, cut, j)
  }

  ghost function CellsGone(count: seq<nat>, tbl: seq<byte>, excess: int, cut: int, k: int, labels: seq<byte>): set<int>
    requires |count| == |tbl| == 256 && 2 <= cut <= k <= 256
  {
    set c | 0 <= c < |labels| && CellGoes(count, tbl, excess, cut, k, labels, c)
  }

  lemma {:induction false} CountGone(count: seq<nat>, tbl: seq<byte>, excess: int, cut: int, k: int, labels: seq<byte>)
    requires |count| == |tbl| == 256 && 2 <= cut <= k <= 256 && Permutation(tbl)
    requires forall v :: 0 <= v < 256 ==> count[v] == Count(labels, v)
    ensures |CellsGone(count, tbl, excess, cut, k, labels)| == Gone(count, tbl, excess, cut, k)
    decreases 256 - k
  {
    hide Goes, Permutation, Count;
    if k < 256 {
      CountGone(count, tbl, excess, cut, k + 1, labels);
      CellsGoneStep(count, tbl, excess, cut, k, labels);
      CountIs(labels, tbl[k] as int);
    } else {
      assert CellsGone(count, tbl, excess, cut, k, labels) == {};
    }
  }

  lemma CountIs(labels: seq<byte>, v: int)
    ensures Count(labels, v) == |CellsWith(labels, v)|
  {
  }

  lemma CellsGoneStep(count: seq<nat>, tbl: seq<byte>, excess: int, cut: int, k: int, labels: seq<byte>)
    requires |count| == |tbl| == 256 && 2 <= cut <= k < 256 && Permutation(tbl)
    ensures var now, later := CellsGone(count, tbl, excess, cut, k, labels),
                              CellsGone(count, tbl, excess, cut, k + 1, labels);
            && now == later + (if Goes(count, tbl, excess, cut, k) then CellsWith(labels, tbl[k] as int) else {})
            && later !! CellsWith(labels, tbl[k] as int)
  {
    hide Goes;
    forall c | 0 <= c < |labels|
      ensures CellGoes(count, tbl, excess, cut, k, labels, c) <==>
              || CellGoes(count, tbl, excess, cut, k + 1, labels, c)
              || (labels[c] == tbl[k] && Goes(count, tbl, excess, cut, k))
      ensures labels[c] == tbl[k] ==> !CellGoes(count, tbl, excess, cut, k + 1, labels, c)
    {
    }
  }

  /** Filling up makes open just the cells of the constructs that go. */
  lemma OpenCells(count: seq<nat>, tbl: seq<byte>, del: seq<byte>, excess: int, cut: int, labels: seq<byte>,
                  d: seq<byte>)
    requires Filling(count, tbl, del, excess, cut, labels, d)
    ensures Count(d, 0) == Count(labels, 0) + Gone(count, tbl, excess, cut, cut)
  {
    hide Goes, Ranking, DelAt, Tail, Mapped, Gone;
    SortedPermutes(count, tbl);
    CountGone(count, tbl, excess, cut, cut, labels);
    var gone := CellsGone(count, tbl, excess, cut, cut, labels);
    forall c | 0 <= c < |labels|
      ensures d[c] == 0 <==> labels[c] == 0 || c in gone
      ensures !(labels[c] == 0 && c in gone)
    {
      CellOpens(count, tbl, del, excess, cut, labels[c]);
    }
    assert CellsWith(d, 0) == CellsWith(labels, 0) + gone;
    assert CellsWith(labels, 0) !! gone;
  }

  lemma CellOpens(count: seq<nat>, tbl: seq<byte>, del: seq<byte>, excess: int, cut: int, v: byte)
    requires |count| == |tbl| == |del| == 256 && 2 <= cut <= 256 && Permutation(tbl) && tbl[0] == 0
    requires forall j :: 0 <= j < 256 ==> DelAt(count, tbl, excess, cut, del, j)
    ensures del[v] == 0 <==> v == 0 || exists j :: cut <= j < 256 && tbl[j] == v && Goes(count, tbl, excess, cut, j)
    ensures v == 0 ==> forall j :: cut <= j < 256 ==> tbl[j] != v
  {
    hide Tail;
    assert DelAt(count, tbl, excess, cut, del, PlaceOf(tbl, v));
  }

  /** The walls left are fewer than the fill ratio asks for, as they are to be, exactly if at most one small
      construct is spared; where all constructs together do not exceed the excess, all of them go. */
  lemma FillMet(count: seq<nat>, tbl: seq<byte>, del: seq<byte>, excess: int, cut: int, labels: seq<byte>,
                d: seq<byte>, target: int)
    requires Filling(count, tbl, del, excess, cut, labels, d) && excess == |labels| - count[0] - target
    ensures Tail(count, tbl, 2) > excess ==>
              (|d| - Count(d, 0) < target <==> |Spared(count, tbl, excess, cut)| <= 1)
    ensures Tail(count, tbl, 2) <= excess ==> Count(d, 0) == Count(labels, 0) + Tail(count, tbl, 2)
  {
    hide Ranking, DelAt, Gone, Count, Mapped, Goes, Spared;
    OpenCells(count, tbl, del, excess, cut, labels, d);
    CutAbove(count, tbl, excess, cut);
    if Tail(count, tbl, 2) > excess {
      EnoughGoes(count, tbl, excess, cut);
    } else {
      NothingSpared(count, tbl, excess);
      NoneSpared(count, tbl, excess, 2, 2);
    }
  }

  lemma CutAbove(count: seq<nat>, tbl: seq<byte>, excess: int, cut: int)
    requires |count| == |tbl| == 256 && IsCut(count, tbl, excess, cut)
    ensures Tail(count, tbl, 2) > excess ==> Tail(count, tbl, cut) > excess
    ensures Tail(count, tbl, 2) <= excess ==> cut == 2
  {
    hide Tail;
    TailFalls(count, tbl, 2, cut);
  }

  lemma {:induction false} TailFalls(count: seq<nat>, tbl: seq<byte>, i: int, k: int)
    requires |count| == |tbl| == 256 && 0 <= i <= k <= 256
    ensures Tail(count, tbl, k) <= Tail(count, tbl, i)
    decreases k - i
  {
    if i < k {
      TailFalls(count, tbl, i + 1, k);
    }
  }

  lemma NothingSpared(count: seq<nat>, tbl: seq<byte>, excess: int)
    requires |count| == |tbl| == 256 && Tail(count, tbl, 2) <= excess
    ensures Spared(count, tbl, excess, 2) == {}
  {
    hide Tail;
  }

  /** Constructs of 10, 9 and 9 cells of which more than 18 are to go: only the 10 go. */
  function MissCount(): (s: seq<nat>)
    ensures |s| == 256 && forall i :: 0 <= i < 256 ==> s[i] == if i == 2 then 10 else if i in {3, 4} then 9 else 0
  {
    seq(256, i => if i == 2 then 10 else if i in {3, 4} then 9 else 0)
  }

  function Identity(): (s: seq<byte>)
    ensures |s| == 256 && forall i :: 0 <= i < 256 ==> s[i] as int == i
  {
    seq(256, i requires 0 <= i < 256 => i as byte)
  }

  lemma {:induction false} NothingAfter(i: int)
    requires 5 <= i <= 256
    ensures Tail(MissCount(), Identity(), i) == 0
    decreases 256 - i
  {
    if i < 256 {
      NothingAfter(i + 1);
    }
  }

  lemma TargetMissed()
    ensures IsCut(MissCount(), Identity(), 18, 2) && Tail(MissCount(), Identity(), 2) == 28
    ensures Gone(MissCount(), Identity(), 18, 2, 2) == 10
  {
    var count, tbl := MissCount(), Identity();
    NothingAfter(5);
    assert Tail(count, tbl, 4) == 9;
    assert Tail(count, tbl, 3) == 18;
    assert Tail(count, tbl, 2) == 28;
    forall i | 2 < i <= 256
      ensures Tail(count, tbl, i) <= 18
    {
      TailFalls(count, tbl, 3, i);
    }
    assert {3, 4} == Spared(count, tbl, 18, 2);
    OneMoreGone(count, tbl);
  }

  lemma OneMoreGone(count: seq<nat>, tbl: seq<byte>)
    requires count == MissCount() && tbl == Identity()
    requires Spared(count, tbl, 18, 2) == {3, 4} && Tail(count, tbl, 5) == 0
    ensures Gone(count, tbl, 18, 2, 2) == 10
  {
    hide Goes, Tail;
    assert 2 !in Spared(count, tbl, 18, 2) && 3 in Spared(count, tbl, 18, 2) && 4 in Spared(count, tbl, 18, 2);
    NoneSpared(count, tbl, 18, 2, 5);
    assert Gone(count, tbl, 18, 2, 4) == 0;
    assert Gone(count, tbl, 18, 2, 3) == 0;
  }
}
