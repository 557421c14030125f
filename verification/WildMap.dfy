/** The global map of wildmap.c, and Flood_map on it. */
module WildMap {
  import opened HelixMap
  import opened Worklist
  import opened FloodTheory

  class WildMap {
    const t: Torus
    const data: array<byte>
    const floodCount: array<nat>
    var floodTrigger: int
    var floodMarker: int

    ghost predicate Valid() {
      t.Valid() && data.Length == t.n && floodCount.Length == 256 && data as object != floodCount as object
    }

    constructor (lw: nat, height: nat)
      requires 0 < lw && 0 < height
      ensures Valid() && t == Torus(lw * height, lw) && fresh(data) && fresh(floodCount)
    {
      SizeOk(lw, height);
      t := Torus(lw * height, lw);
      data := new byte[lw * height](_ => 0);
      floodCount := new nat[256](_ => 0);
      floodTrigger, floodMarker := 0, 0;
    }
  }

  lemma SizeOk(lw: nat, height: nat)
    requires 0 < lw && 0 < height
    ensures lw <= lw * height
  {
  }

  /** The state of Flood_map: how far the flood from cell i of the map d0 has got. */
  ghost predicate FloodState(wm: WildMap, w: Chunks, d0: seq<byte>, i: int, open: int)
    requires wm.Valid()
    reads wm, wm.data, w
  {
    && 0 <= wm.floodTrigger < 256 && 0 <= wm.floodMarker < 256
    && Flooding(wm.t, d0, wm.data[..], wm.floodTrigger as byte, wm.floodMarker as byte, i, w.pending, open)
  }

  /** Nothing but marking happened: trigger cells stay or are marked, other cells stay. */
  ghost predicate Marked(d: seq<byte>, d': seq<byte>, trigger: int, marker: int) {
    |d| == |d'| && forall c :: 0 <= c < |d| ==> d'[c] == d[c] || (d[c] as int == trigger && d'[c] as int == marker)
  }

  /** The flood made progress: fewer trigger cells, or as many and fewer pending ones. */
  ghost predicate Progress(d: seq<byte>, p: seq<seq<int>>, d': seq<byte>, p': seq<seq<int>>, trigger: int) {
    var s, s' := CellsWith(d, trigger), CellsWith(d', trigger);
    s' < s || (s' == s && Total(p') < Total(p))
  }

  ghost predicate Shrinks(d: seq<byte>, p: seq<seq<int>>, d': seq<byte>, p': seq<seq<int>>, trigger: int) {
    var s, s' := CellsWith(d, trigger), CellsWith(d', trigger);
    s' < s || (s' == s && p' == p)
  }

  lemma ShrinksTrans()
    ensures forall d, p, d', p', d'', p'',
            trigger {:trigger Shrinks(d, p, d', p', trigger), Shrinks(d', p', d'', p'', trigger)} ::
              Shrinks(d, p, d', p', trigger) && Shrinks(d', p', d'', p'', trigger) ==> Shrinks(d, p, d'', p'', trigger)
  {
    hide CellsWith;
  }

  /** Mark and stack cell j if it has the trigger value. */
  method Visit(wm: WildMap, w: Chunks, j: int, ghost d0: seq<byte>, ghost i: int, ghost here: int)
    requires wm.Valid() && w.Valid() && wm.data !in w.repr && wm !in w.repr
             && |w.pending[|w.pending| - 1]| < INTARR_SIZE
    requires wm.t.Has(here) && wm.t.Near(here, j) && FloodState(wm, w, d0, i, here)
    requires wm.data[here] as int == wm.floodMarker && d0[here] as int == wm.floodTrigger
    modifies wm.data, w.repr
    ensures w.Valid() && w.repr == old(w.repr) && |w.pending| == old(|w.pending|)
    ensures |w.pending[|w.pending| - 1]| <= old(|w.pending[|w.pending| - 1]|) + 1
    ensures FloodState(wm, w, d0, i, here) && Marked(old(wm.data[..]), wm.data[..], wm.floodTrigger, wm.floodMarker)
    ensures wm.data[here] as int == wm.floodMarker && wm.data[j] as int != wm.floodTrigger
    ensures Shrinks(old(wm.data[..]), old(w.pending), wm.data[..], w.pending, wm.floodTrigger)
  {
    hide Flooding;
    Different(wm, w, d0, i, here);
    if wm.data[j] as int == wm.floodTrigger {
      FloodVisit(wm.t, d0, wm.data[..], wm.floodTrigger as byte, wm.floodMarker as byte, i, w.pending, here, j);
      assert j in CellsWith(wm.data[..], wm.floodTrigger);
      wm.data[j] := wm.floodMarker as byte;
      w.Put(j);
    }
  }

  lemma Different(wm: WildMap, w: Chunks, d0: seq<byte>, i: int, open: int)
    requires wm.Valid() && FloodState(wm, w, d0, i, open)
    ensures wm.floodTrigger != wm.floodMarker && |d0| == wm.t.n
  {
  }

  /** Visit the four neighbours of the open cell. */
  method VisitAround(wm: WildMap, w: Chunks, k: int, ghost d0: seq<byte>, ghost i: int)
    requires wm.Valid() && w.Valid() && wm.data !in w.repr && wm !in w.repr
             && |w.pending[|w.pending| - 1]| + 4 <= INTARR_SIZE
    requires wm.t.Has(k) && FloodState(wm, w, d0, i, k)
    requires wm.data[k] as int == wm.floodMarker && d0[k] as int == wm.floodTrigger
    modifies wm.data, w.repr
    ensures w.Valid() && w.repr == old(w.repr) && FloodState(wm, w, d0, i, -1)
    ensures Shrinks(old(wm.data[..]), old(w.pending), wm.data[..], w.pending, wm.floodTrigger)
  {
    hide Flooding, CellsWith, FloodState, Chunks.Holds, Shrinks;
    ShrinksTrans();
    Visit(wm, w, wm.t.Up(k), d0, i, k);
    Visit(wm, w, wm.t.Left(k), d0, i, k);
    Visit(wm, w, wm.t.Down(k), d0, i, k);
    Visit(wm, w, wm.t.Right(k), d0, i, k);
    CloseState(wm, w, d0, i, k);
  }

  lemma CloseState(wm: WildMap, w: Chunks, d0: seq<byte>, i: int, k: int)
    requires wm.Valid() && FloodState(wm, w, d0, i, k) && wm.t.Has(k)
    requires wm.data[wm.t.Up(k)] as int != wm.floodTrigger && wm.data[wm.t.Left(k)] as int != wm.floodTrigger
    requires wm.data[wm.t.Down(k)] as int != wm.floodTrigger && wm.data[wm.t.Right(k)] as int != wm.floodTrigger
    ensures FloodState(wm, w, d0, i, -1)
  {
    hide Flooding;
    assert |wm.data[..]| == wm.t.n;
    FloodClose(wm.t, d0, wm.data[..], wm.floodTrigger as byte, wm.floodMarker as byte, i, w.pending, k);
  }

  /** Take a cell from the worklist. */
  method TakeCell(wm: WildMap, w: Chunks, ghost d0: seq<byte>, ghost i: int) returns (k: int)
    requires wm.Valid() && w.Valid() && wm.data !in w.repr && wm !in w.repr && FloodState(wm, w, d0, i, -1)
             && w.pending[0] != []
    modifies w.repr
    ensures w.Valid() && w.repr == old(w.repr) && wm.data[..] == old(wm.data[..])
    ensures wm.t.Has(k) && FloodState(wm, w, d0, i, k)
    ensures wm.data[k] as int == wm.floodMarker && d0[k] as int == wm.floodTrigger
    ensures Total(w.pending) == old(Total(w.pending)) - 1
  {
    hide Flooding, Chunks.Holds, Total;
    ghost var p := w.pending;
    Different(wm, w, d0, i, -1);
    k := w.Pop();
    FloodPop(wm.t, d0, wm.data[..], wm.floodTrigger as byte, wm.floodMarker as byte, i, p, w.pending[0], k);
    TotalPop(p, w.pending[0], k, w.pending);
  }

  /** Make room for four cells. */
  method MakeRoom(wm: WildMap, w: Chunks, ghost d0: seq<byte>, ghost i: int, ghost k: int)
    requires wm.Valid() && w.Valid() && wm.data !in w.repr && wm !in w.repr && FloodState(wm, w, d0, i, k)
    modifies w.repr
    ensures w.Valid() && fresh(w.repr - old(w.repr)) && wm.data[..] == old(wm.data[..])
    ensures FloodState(wm, w, d0, i, k) && |w.pending[|w.pending| - 1]| + 4 <= INTARR_SIZE
    ensures Total(w.pending) == old(Total(w.pending))
  {
    hide Flooding, Chunks.Holds, Total;
    ghost var q := w.pending;
    w.Reserve();
    FloodSame(wm.t, d0, wm.data[..], wm.floodTrigger as byte, wm.floodMarker as byte, i, q, w.pending, k);
    TotalAppend(q);
  }

  /** One round of the worklist: take a cell, make room, and visit its four neighbours. */
  method ExpandCell(wm: WildMap, w: Chunks, ghost d0: seq<byte>, ghost i: int)
    requires wm.Valid() && w.Valid() && wm.data !in w.repr && wm !in w.repr && FloodState(wm, w, d0, i, -1)
             && w.pending[0] != []
    modifies wm.data, w.repr
    ensures w.Valid() && fresh(w.repr - old(w.repr)) && FloodState(wm, w, d0, i, -1)
    ensures Progress(old(wm.data[..]), old(w.pending), wm.data[..], w.pending, wm.floodTrigger)
  {
    hide FloodState, CellsWith, Total, Chunks.Holds;
    var k := TakeCell(wm, w, d0, i);
    MakeRoom(wm, w, d0, i, k);
    VisitAround(wm, w, k, d0, i);
  }

  /** The loop over the chunk at getp. */
  method DrainChunk(wm: WildMap, w: Chunks, ghost d0: seq<byte>, ghost i: int)
    requires wm.Valid() && w.Valid() && wm.data !in w.repr && wm !in w.repr && FloodState(wm, w, d0, i, -1)
    modifies wm.data, w.repr
    ensures w.Valid() && fresh(w.repr - old(w.repr)) && FloodState(wm, w, d0, i, -1) && w.pending[0] == []
    ensures Worked(old(wm.data[..]), old(w.pending), wm.data[..], w.pending, wm.floodTrigger)
  {
    hide FloodState, CellsWith, Total, Chunks.Holds;
    w.AtEnd();
    while w.getp.n > 0
      invariant w.Valid() && fresh(w.repr - old(w.repr)) && FloodState(wm, w, d0, i, -1)
      invariant wm.data !in w.repr && wm !in w.repr && w.getp.n == |w.pending[0]|
      invariant Worked(old(wm.data[..]), old(w.pending), wm.data[..], w.pending, wm.floodTrigger)
      decreases CellsWith(wm.data[..], wm.floodTrigger), Total(w.pending)
    {
      ghost var d, p := wm.data[..], w.pending;
      ExpandCell(wm, w, d0, i);
      WorkedMore(old(wm.data[..]), old(w.pending), d, p, wm.data[..], w.pending, wm.floodTrigger);
      w.AtEnd();
    }
  }

  lemma {:induction false} TotalAppend(p: seq<seq<int>>)
    ensures Total(p + [[]]) == Total(p)
  {
    if p != [] {
      assert (p + [[]])[1..] == p[1..] + [[]];
      TotalAppend(p[1..]);
    }
  }

  lemma TotalPop(p: seq<seq<int>>, rest: seq<int>, k: int, q: seq<seq<int>>)
    requires 0 < |p| && p[0] == rest + [k] && q == p[0 := rest]
    ensures Total(q) == Total(p) - 1
  {
    assert p[0 := rest][1..] == p[1..];
  }

  lemma StartState(wm: WildMap, w: Chunks, d0: seq<byte>, i: int)
    requires wm.Valid() && wm.t.Has(i) && |d0| == wm.t.n && w.pending == [[i]]
    requires 0 <= wm.floodTrigger < 256 && 0 <= wm.floodMarker < 256 && wm.floodTrigger != wm.floodMarker
    requires d0[i] as int == wm.floodTrigger && wm.data[..] == d0[i := wm.floodMarker as byte]
    ensures FloodState(wm, w, d0, i, -1)
  {
    hide Flooding;
    FloodStart(wm.t, d0, wm.floodTrigger as byte, wm.floodMarker as byte, i);
  }

  lemma EndState(wm: WildMap, w: Chunks, d0: seq<byte>, i: int)
    requires wm.Valid() && FloodState(wm, w, d0, i, -1) && |w.pending| == 1 && w.pending[0] == []
    ensures wm.data[..] == Flooded(wm.t, d0, wm.floodTrigger as byte, wm.floodMarker as byte, i)
  {
    hide Flooding, Flooded;
    FloodEnd(wm.t, d0, wm.data[..], wm.floodTrigger as byte, wm.floodMarker as byte, i, w.pending);
  }

  /** Go on to the next chunk. */
  method NextChunk(wm: WildMap, w: Chunks, ghost d0: seq<byte>, ghost i: int)
    requires wm.Valid() && w.Valid() && FloodState(wm, w, d0, i, -1) && w.pending[0] == [] && w.getp.next != null
    modifies w
    ensures w.Valid() && FloodState(wm, w, d0, i, -1)
    ensures w.pending == old(w.pending)[1..] && w.repr == old(w.repr)
  {
    hide Flooding, Chunks.Holds;
    FloodSame(wm.t, d0, wm.data[..], wm.floodTrigger as byte, wm.floodMarker as byte, i, w.pending, w.pending[1..], -1);
    w.Advance();
  }

  ghost predicate Worked(d: seq<byte>, p: seq<seq<int>>, d': seq<byte>, p': seq<seq<int>>, trigger: int) {
    (d' == d && p' == p) || Progress(d, p, d', p', trigger)
  }

  lemma WorkedMore(d: seq<byte>, p: seq<seq<int>>, d': seq<byte>, p': seq<seq<int>>, d'': seq<byte>,
                   p'': seq<seq<int>>, trigger: int)
    requires Worked(d, p, d', p', trigger) && Progress(d', p', d'', p'', trigger)
    ensures Worked(d, p, d'', p'', trigger)
    ensures CellsWith(d'', trigger) < CellsWith(d', trigger)
            || (CellsWith(d'', trigger) == CellsWith(d', trigger) && Total(p'') < Total(p'))
  {
    hide CellsWith, Total;
  }

  lemma WorkedMeans(d: seq<byte>, p: seq<seq<int>>, d': seq<byte>, p': seq<seq<int>>, trigger: int)
    requires Worked(d, p, d', p', trigger)
    ensures || CellsWith(d', trigger) < CellsWith(d, trigger)
            || (CellsWith(d', trigger) == CellsWith(d, trigger) && Total(p') < Total(p))
            || (CellsWith(d', trigger) == CellsWith(d, trigger) && p' == p)
  {
    hide CellsWith, Total;
  }

  /** Flood_map. */
  method FloodMap(wm: WildMap, i: int)
    requires wm.Valid() && wm.t.Has(i)
    requires 0 <= wm.floodTrigger < 256 && 0 <= wm.floodMarker < 256 && wm.floodTrigger != wm.floodMarker
    modifies wm.data
    ensures wm.data[..] == if old(wm.data[i]) as int == wm.floodTrigger
                           then Flooded(wm.t, old(wm.data[..]), wm.floodTrigger as byte, wm.floodMarker as byte, i)
                           else old(wm.data[..])
  {
    hide Flooding, CellsWith, Total, Flooded, Chunks.Holds, FloodState, Worked, Progress;
    if wm.data[i] as int != wm.floodTrigger {
      return;
    }
    ghost var d0 := wm.data[..];
    wm.data[i] := wm.floodMarker as byte;
    var w := new Chunks(i);
    StartState(wm, w, d0, i);
    while true
      invariant fresh(w) && fresh(w.repr) && w.Valid() && FloodState(wm, w, d0, i, -1)
      decreases CellsWith(wm.data[..], wm.floodTrigger), Total(w.pending), |w.pending|
    {
      ghost var d1, p1 := wm.data[..], w.pending;
      DrainChunk(wm, w, d0, i);
      WorkedMeans(d1, p1, wm.data[..], w.pending, wm.floodTrigger);
      w.AtEnd();
      if w.getp.next == null {
        EndState(wm, w, d0, i);
        return;
      }
      TotalShift(w.pending);
      NextChunk(wm, w, d0, i);
    }
  }

  lemma TotalShift(p: seq<seq<int>>)
    requires 0 < |p| && p[0] == []
    ensures Total(p[1..]) == Total(p)
  {
  }
}
