/** What Partition_map of wildmap.c does when no open region outnumbers the cells without a label: two
    walls and two open bands around the torus, each at least a line wide. */
module OpenBands {
  import opened Basics
  import opened HelixMap
  import opened LabelTheory
  import opened LabelErasure
  import opened FloodTheory
  import opened Labels
  import opened Partition

  predicate Between(lo: int, i: int, hi: int) { lo <= i < hi }

  ghost function Run(lo: int, hi: int): set<int> {
    set i | lo <= i < hi && Between(lo, i, hi)
  }

  lemma {:induction false} RunSize(lo: int, hi: int)
    requires lo <= hi
    ensures |Run(lo, hi)| == hi - lo
    decreases hi - lo
  {
    if lo < hi {
      RunSize(lo, hi - 1);
      assert Run(lo, hi) == Run(lo, hi - 1) + {hi - 1};
    } else {
      assert Run(lo, hi) == {};
    }
  }

  /** The cells of a run are joined to its first cell. */
  lemma {:induction false} RunJoined(t: Torus, s: set<int>, lo: int, i: int)
    requires t.Valid() && 0 <= lo <= i < t.n && Run(lo, i + 1) <= s
    ensures Joined(t, s, lo, i)
    decreases i - lo
  {
    hide Joined;
    JoinedEquivalence(t, s, lo, lo, lo);
    assert lo in Run(lo, i + 1) && i in Run(lo, i + 1);
    if lo < i {
      assert Run(lo, i) <= s;
      RunJoined(t, s, lo, i - 1);
      assert t.Left(i) == i - 1;
      NearSymmetric(t, i, i - 1);
      JoinedEquivalence(t, s, lo, i - 1, i);
    }
  }

  /** Two cells of a run are joined. */
  lemma RunConnects(t: Torus, s: set<int>, lo: int, hi: int, i: int, j: int)
    requires t.Valid() && 0 <= lo <= i < hi <= t.n && lo <= j < hi && Run(lo, hi) <= s
    ensures Joined(t, s, i, j)
  {
    hide Joined;
    assert Run(lo, i + 1) <= s && Run(lo, j + 1) <= s;
    RunJoined(t, s, lo, i);
    RunJoined(t, s, lo, j);
    JoinedEquivalence(t, s, lo, i, j);
    JoinedEquivalence(t, s, i, lo, j);
  }

  /** The walls take the cells before a and those from b to c, and the open bands all others. */
  predicate Bands(t: Torus, a: int, b: int, c: int) {
    t.Valid() && t.lw <= a && t.lw <= b - a && t.lw <= c - b && t.lw <= t.n - c
  }

  ghost function Walls(a: int, b: int, c: int): set<int> {
    Run(0, a) + Run(b, c)
  }

  ghost function Opens(t: Torus, a: int, b: int, c: int): set<int> {
    Run(a, b) + Run(c, t.n)
  }

  lemma OthersSwap(t: Torus, a: int, b: int, c: int)
    requires Bands(t, a, b, c)
    ensures Others(t, Opens(t, a, b, c)) == Walls(a, b, c) && Others(t, Walls(a, b, c)) == Opens(t, a, b, c)
  {
  }

  lemma BandSizes(t: Torus, a: int, b: int, c: int)
    requires Bands(t, a, b, c)
    ensures |Walls(a, b, c)| == a + c - b
  {
    RunSize(0, a);
    RunSize(b, c);
    assert Run(0, a) !! Run(b, c);
  }

  /** No step leads from one wall to the other, nor from one open band to the other. */
  lemma BandsApart(t: Torus, a: int, b: int, c: int, i: int, j: int)
    requires Bands(t, a, b, c) && t.Near(i, j)
    ensures i in Run(0, a) && j in Walls(a, b, c) ==> j in Run(0, a)
    ensures i in Run(a, b) && j in Opens(t, a, b, c) ==> j in Run(a, b)
    ensures i in Run(c, t.n) && j in Opens(t, a, b, c) ==> j in Run(c, t.n)
  {
  }

  /** The open bands are the two open regions. */
  lemma OpenRegions(t: Torus, a: int, b: int, c: int, i: int, j: int)
    requires Bands(t, a, b, c) && i in Opens(t, a, b, c) && j in Opens(t, a, b, c)
    ensures Joined(t, Opens(t, a, b, c), i, j) <==> (i < b <==> j < b)
  {
    hide Joined;
    var open := Opens(t, a, b, c);
    var band := if i < b then Run(a, b) else Run(c, t.n);
    if Joined(t, open, i, j) {
      forall x, y | x in band && y in open && t.Near(x, y)
        ensures y in band
      {
        BandsApart(t, a, b, c, x, y);
      }
      JoinedStays(t, open, band, i, j);
    }
    if i < b && j < b {
      RunConnects(t, open, a, b, i, j);
    } else if i >= b && j >= b {
      RunConnects(t, open, c, t.n, i, j);
    }
  }

  lemma WallsApart(t: Torus, a: int, b: int, c: int)
    requires Bands(t, a, b, c)
    ensures !AllJoined(t, Walls(a, b, c))
  {
    hide Joined;
    var walls := Walls(a, b, c);
    if AllJoined(t, walls) {
      assert 0 in walls && b in walls && Joined(t, walls, 0, b);
      forall x, y | x in Run(0, a) && y in walls && t.Near(x, y)
        ensures y in Run(0, a)
      {
        BandsApart(t, a, b, c, x, y);
      }
      JoinedStays(t, walls, Run(0, a), 0, b);
    }
  }

  /** Two constructs are not too many. */
  lemma FewBands(t: Torus, a: int, b: int, c: int)
    requires Bands(t, a, b, c)
    ensures !TooMany(t, Opens(t, a, b, c))
  {
    hide Joined, Opens;
    var open := Opens(t, a, b, c);
    if TooMany(t, open) {
      var p :| |p| == 255 && Apart(t, open, p);
      assert !Joined(t, open, p[0], p[1]) && !Joined(t, open, p[0], p[2]) && !Joined(t, open, p[1], p[2]);
      OpenRegions(t, a, b, c, p[0], p[1]);
      OpenRegions(t, a, b, c, p[0], p[2]);
      OpenRegions(t, a, b, c, p[1], p[2]);
      assert false;
    }
  }

  /** No open band has more cells than the walls together. */
  predicate NoneDominant(t: Torus, a: int, b: int, c: int) {
    b - a <= a + c - b && t.n - c <= a + c - b
  }

  lemma OpenSmall(t: Torus, a: int, b: int, c: int, i: int)
    requires Bands(t, a, b, c) && NoneDominant(t, a, b, c) && i in Opens(t, a, b, c)
    ensures |Construct(t, Opens(t, a, b, c), i)| <= |Walls(a, b, c)|
  {
    hide Joined;
    var open := Opens(t, a, b, c);
    var band := if i < b then Run(a, b) else Run(c, t.n);
    forall x | x in Construct(t, open, i)
      ensures x in band
    {
      OpenRegions(t, a, b, c, i, x);
    }
    SubsetSize(Construct(t, open, i), band);
    RunSize(a, b);
    RunSize(c, t.n);
    BandSizes(t, a, b, c);
  }

  /** The walls become the region. */
  lemma WallsRegion(t: Torus, a: int, b: int, c: int, region: set<int>, unkept: set<int>)
    requires Bands(t, a, b, c) && NoneDominant(t, a, b, c)
    requires Unkept(t, Opens(t, a, b, c), unkept) && MainRegion(t, Opens(t, a, b, c), unkept, region)
    ensures region == Walls(a, b, c)
  {
    hide Construct, TooMany, Opens, Walls;
    FewBands(t, a, b, c);
    OthersSwap(t, a, b, c);
    var open := Opens(t, a, b, c);
    forall i | i in open
      ensures |Construct(t, open, i)| <= |unkept|
    {
      OpenSmall(t, a, b, c, i);
    }
  }

  /** The open bands get two different labels. */
  lemma BandLabels(t: Torus, a: int, b: int, c: int, labels: seq<byte>)
    requires Bands(t, a, b, c) && Labelled(t, Opens(t, a, b, c), labels) && Erasure(t, Opens(t, a, b, c), labels)
    ensures |labels| == t.n && labels[a] != labels[c] && 2 <= labels[a] && 2 <= labels[c]
    ensures forall i :: 0 <= i < t.n ==>
              labels[i] == if a <= i < b then labels[a] else if c <= i then labels[c] else 0
  {
    hide Joined, TooMany, Opens;
    FewBands(t, a, b, c);
    InOpens(t, a, b, c);
    var open := Opens(t, a, b, c);
    assert !Erased(open, labels, a) && !Erased(open, labels, c);
    OpenRegions(t, a, b, c, a, c);
    forall i | 0 <= i < t.n
      ensures labels[i] == if a <= i < b then labels[a] else if c <= i then labels[c] else 0
    {
      if i in open {
        OpenRegions(t, a, b, c, a, i);
        OpenRegions(t, a, b, c, c, i);
      }
    }
  }

  lemma InOpens(t: Torus, a: int, b: int, c: int)
    requires Bands(t, a, b, c)
    ensures forall i :: i in Opens(t, a, b, c) <==> a <= i < b || c <= i < t.n
  {
  }

  lemma BandCounts(t: Torus, a: int, b: int, c: int, labels: seq<byte>)
    requires Bands(t, a, b, c) && |labels| == t.n && labels[a] != labels[c] && 2 <= labels[a] && 2 <= labels[c]
    requires forall i :: 0 <= i < t.n ==>
               labels[i] == if a <= i < b then labels[a] else if c <= i then labels[c] else 0
    ensures Count(labels, 0) == a + c - b && 0 < Count(labels, labels[a] as int)
    ensures forall v :: 0 < v && v != labels[a] as int && v != labels[c] as int ==> Count(labels, v) == 0
  {
    BandSizes(t, a, b, c);
    assert CellsWith(labels, 0) == Walls(a, b, c);
    assert a in CellsWith(labels, labels[a] as int);
    forall v | 0 < v && v != labels[a] as int && v != labels[c] as int
      ensures Count(labels, v) == 0
    {
      assert CellsWith(labels, v) == {};
    }
  }

  // ---------------------------------------------------------------- what is erased

  /** With a target above the number of open cells nothing is erased. */
  lemma NothingErased(count: seq<nat>, tbl: seq<byte>, del: seq<byte>, excess: int, cut: int, labels: seq<byte>,
                      d: seq<byte>)
    requires Filling(count, tbl, del, excess, cut, labels, d) && excess < 0
    ensures d == labels
  {
    assert Tail(count, tbl, 256) == 0;
    forall v: byte
      ensures del[v] == v
    {
      if v >= 2 {
        assert v in tbl[2..];
      }
      var j :| 0 <= j < 256 && tbl[j] == v;
      assert DelAt(count, tbl, excess, cut, del, j);
    }
  }

  /** With any other target the label at the cut is erased, and it is in use. */
  lemma SomethingErased(count: seq<nat>, tbl: seq<byte>, del: seq<byte>, excess: int, cut: int, labels: seq<byte>,
                        d: seq<byte>, used: byte)
    returns (v: byte)
    requires Filling(count, tbl, del, excess, cut, labels, d) && 0 <= excess && 2 <= used && 0 < count[used]
    ensures 2 <= v && del[v] == 0 && 0 < count[v]
  {
    assert Tail(count, tbl, 256) == 0;
    assert cut < 256;
    v := tbl[cut];
    assert DelAt(count, tbl, excess, cut, del, cut);
    assert tbl[2..][cut - 2] == v;
    if cut == 2 {
      assert used in tbl[2..];
      var k :| 0 <= k < |tbl[2..]| && tbl[2..][k] == used;
      assert 0 < k ==> Before(count, tbl[2..][0] as int, tbl[2..][k] as int);
    } else {
      assert Tail(count, tbl, cut + 1) <= excess < Tail(count, tbl, cut);
    }
  }

  /** With an open band erased into them, the cells with value 0 are connected. */
  lemma ZerosConnected(t: Torus, a: int, b: int, c: int, zeros: set<int>, first: bool, second: bool)
    requires Bands(t, a, b, c) && (first || second)
    requires zeros == Walls(a, b, c) + (if first then Run(a, b) else {}) + (if second then Run(c, t.n) else {})
    ensures AllJoined(t, zeros)
  {
    hide Joined;
    var r := if second then b else 0;
    forall i | i in zeros
      ensures Joined(t, zeros, r, i)
    {
      if second {
        if i >= b {
          RunConnects(t, zeros, b, t.n, b, i);
        } else if first {
          RunConnects(t, zeros, 0, t.n, b, i);
        } else {
          assert t.Left(0) == t.n - 1;
          NearSymmetric(t, 0, t.n - 1);
          RunConnects(t, zeros, b, t.n, b, t.n - 1);
          assert 0 in zeros;
          JoinedEquivalence(t, zeros, b, t.n - 1, 0);
          RunConnects(t, zeros, 0, a, 0, i);
          JoinedEquivalence(t, zeros, b, 0, i);
        }
      } else {
        RunConnects(t, zeros, 0, c, 0, i);
      }
    }
    forall i, j | i in zeros && j in zeros
      ensures Joined(t, zeros, i, j)
    {
      JoinedEquivalence(t, zeros, r, i, j);
      JoinedEquivalence(t, zeros, i, r, j);
    }
  }

  lemma ZerosOf(t: Torus, a: int, b: int, c: int, labels: seq<byte>, del: seq<byte>)
    requires Bands(t, a, b, c) && |labels| == t.n && |del| == 256 && del[0] == 0
    requires forall i :: 0 <= i < t.n ==>
               labels[i] == if a <= i < b then labels[a] else if c <= i then labels[c] else 0
    ensures CellsWith(Mapped(labels, del), 0)
         == Walls(a, b, c) + (if del[labels[a]] == 0 then Run(a, b) else {})
             + (if del[labels[c]] == 0 then Run(c, t.n) else {})
  {
  }

  lemma ZerosErased(t: Torus, a: int, b: int, c: int, labels: seq<byte>, count: seq<nat>, tbl: seq<byte>,
                    del: seq<byte>, excess: int, cut: int, d: seq<byte>)
    requires Bands(t, a, b, c) && |labels| == t.n && labels[a] != labels[c] && 2 <= labels[a] && 2 <= labels[c]
    requires forall i :: 0 <= i < t.n ==>
               labels[i] == if a <= i < b then labels[a] else if c <= i then labels[c] else 0
    requires Filling(count, tbl, del, excess, cut, labels, d)
    ensures AllJoined(t, CellsWith(d, 0)) <==> 0 <= excess
  {
    hide AllJoined, Tail, CellsWith, Walls, Run, Ranking;
    BandCounts(t, a, b, c, labels);
    if excess < 0 {
      NothingErased(count, tbl, del, excess, cut, labels, d);
      WallsApart(t, a, b, c);
      ZerosUnmapped(t, a, b, c, labels);
    } else {
      var v := SomethingErased(count, tbl, del, excess, cut, labels, d, labels[a]);
      ZeroStays(count, tbl, del, excess, cut, labels, d);
      ZerosOf(t, a, b, c, labels, del);
      ZerosConnected(t, a, b, c, CellsWith(d, 0), del[labels[a]] == 0, del[labels[c]] == 0);
    }
  }

  lemma ZerosUnmapped(t: Torus, a: int, b: int, c: int, labels: seq<byte>)
    requires Bands(t, a, b, c) && |labels| == t.n && 2 <= labels[a] && 2 <= labels[c]
    requires forall i :: 0 <= i < t.n ==>
               labels[i] == if a <= i < b then labels[a] else if c <= i then labels[c] else 0
    ensures CellsWith(labels, 0) == Walls(a, b, c)
  {
  }

  lemma ZeroStays(count: seq<nat>, tbl: seq<byte>, del: seq<byte>, excess: int, cut: int, labels: seq<byte>,
                  d: seq<byte>)
    requires Filling(count, tbl, del, excess, cut, labels, d)
    ensures del[0] == 0
  {
    hide Tail, Ranking;
    assert DelAt(count, tbl, excess, cut, del, 0);
  }

  /** Two open bands, neither of which outnumbers the walls: walls and open cells swap roles, and the cells
      with value 0 at the end are connected if and only if the target is at most the number of open cells. */
  lemma RolesSwap(t: Torus, a: int, b: int, c: int, target: int, region: set<int>, unkept: set<int>,
                  labels: seq<byte>, d: seq<byte>)
    requires Bands(t, a, b, c) && NoneDominant(t, a, b, c)
    requires Unkept(t, Opens(t, a, b, c), unkept) && MainRegion(t, Opens(t, a, b, c), unkept, region)
    requires Labelled(t, Others(t, region), labels) && Erasure(t, Others(t, region), labels)
    requires FilledUp(labels, d, t.n, target)
    ensures AllJoined(t, CellsWith(d, 0)) <==> target <= (b - a) + (t.n - c)
  {
    hide AllJoined, Labelled, Erasure, CellsWith, Walls, Opens, Tail, IsCut, DelAt, Sorted, Unkept, MainRegion;
    WallsRegion(t, a, b, c, region, unkept);
    OthersSwap(t, a, b, c);
    BandLabels(t, a, b, c, labels);
    BandCounts(t, a, b, c, labels);
    var count, tbl, del, excess, cut :|
      Filling(count, tbl, del, excess, cut, labels, d) && excess == t.n - count[0] - target;
    ZerosErased(t, a, b, c, labels, count, tbl, del, excess, cut, d);
  }
}
