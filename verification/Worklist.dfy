/** The worklist of Flood_map in wildmap.c: a linked list of fixed-size chunks.  Cells are taken from
    the chunk at getp and put into the chunk at putp, which is the last one. */
module Worklist {

  const INTARR_SIZE: int := 1024

  class IntArr {
    var next: IntArr?
    var n: int
    const arr: array<int>

    constructor ()
      ensures next == null && n == 0 && arr.Length == INTARR_SIZE && fresh(arr)
    {
      next, n := null, 0;
      arr := new int[INTARR_SIZE];
    }
  }

  class Chunks {
    var getp: IntArr
    var putp: IntArr
    /** The chunks from getp to putp, and the cells pending in each. */
    ghost var list: seq<IntArr>
    ghost var pending: seq<seq<int>>

    ghost var repr: set<object>

    ghost predicate Valid()
      reads this, repr
    {
      && this in repr && (forall c :: c in list ==> c in repr && c.arr in repr)
      && 0 < |list| == |pending| && getp == list[0] && putp == list[|list| - 1]
      && (forall k :: 0 <= k < |list| ==> Holds(list, k, pending[k]))
      && (forall j, k :: 0 <= j < k < |list| ==> list[j] != list[k] && list[j].arr != list[k].arr)
    }

    /** Chunk k is linked to the next one and holds the cells of `cells`. */
    static ghost predicate Holds(list: seq<IntArr>, k: nat, cells: seq<int>)
      requires k < |list|
      reads list[k], list[k].arr
    {
      var c := list[k];
      && c.arr.Length == INTARR_SIZE && 0 <= c.n <= INTARR_SIZE
      && c.next == (if k + 1 < |list| then list[k + 1] else null)
      && c.arr[..c.n] == cells
    }

    constructor (i: int)
      ensures Valid() && pending == [[i]] && fresh(repr)
    {
      var c := new IntArr();
      getp, putp := c, c;
      list, pending, repr := [c], [[i]], {this, c, c.arr};
      new;
      putp.next := null;
      putp.n := 1;
      putp.arr[0] := i;
    }

    /** k = getp->arr[--getp->n] */
    method Pop() returns (k: int)
      requires Valid() && pending[0] != []
      modifies repr
      ensures Valid() && repr == old(repr) && getp == old(getp) && putp == old(putp)
      ensures old(pending[0]) == pending[0] + [k] && pending == old(pending)[0 := pending[0]]
    {
      ghost var old0 := pending[0];
      assert Holds(list, 0, pending[0]);
      getp.n := getp.n - 1;
      k := getp.arr[getp.n];
      pending := pending[0 := old0[..|old0| - 1]];
      forall j | 0 <= j < |list|
        ensures Holds(list, j, pending[j])
      {
        assert 0 < j ==> old(Holds(list, j, pending[j]));
      }
    }

    /** Make sure that four more cells fit into the chunk at putp. */
    method Reserve()
      requires Valid()
      modifies repr
      ensures Valid() && getp == old(getp) && |pending[|pending| - 1]| + 4 <= INTARR_SIZE
      ensures pending == old(pending) || pending == old(pending) + [[]]
      ensures fresh(repr - old(repr))
    {
      assert Holds(list, |list| - 1, pending[|pending| - 1]);
      if putp.n + 4 > INTARR_SIZE {
        var c := new IntArr();
        putp.next := c;
        putp := c;
        list, pending, repr := list + [c], pending + [[]], repr + {c, c.arr};
        forall j | 0 <= j < |list|
          ensures Holds(list, j, pending[j])
        {
          assert j + 1 < |list| ==> old(Holds(list, j, pending[j]));
        }
      }
    }

    /** putp->arr[putp->n++] = j */
    method Put(j: int)
      requires Valid() && |pending[|pending| - 1]| < INTARR_SIZE
      modifies repr
      ensures Valid() && repr == old(repr) && getp == old(getp) && putp == old(putp)
      ensures pending == PutLast(old(pending), j)
    {
      assert Holds(list, |list| - 1, pending[|pending| - 1]);
      putp.arr[putp.n] := j;
      putp.n := putp.n + 1;
      pending := pending[|pending| - 1 := pending[|pending| - 1] + [j]];
      forall k | 0 <= k < |list|
        ensures Holds(list, k, pending[k])
      {
        assert k + 1 < |list| ==> old(Holds(list, k, pending[k]));
      }
    }

    /** getp = getp->next, when the chunk at getp is empty and not the last. */
    method Advance()
      requires Valid() && pending[0] == [] && getp.next != null
      modifies this
      ensures Valid() && pending == old(pending)[1..] && repr == old(repr)
    {
      assert Holds(list, 0, pending[0]);
      getp := getp.next;
      assert forall c :: c in list[1..] ==> c in list;
      list, pending := list[1..], pending[1..];
      forall k | 0 <= k < |list|
        ensures Holds(list, k, pending[k])
      {
        assert old(Holds(list, k + 1, pending[k + 1]));
      }
    }

    /** The pending cells with j added to the last chunk. */
    static ghost function PutLast(p: seq<seq<int>>, j: int): seq<seq<int>>
      requires 0 < |p|
    {
      p[|p| - 1 := p[|p| - 1] + [j]]
    }

    lemma AtEnd()
      requires Valid()
      ensures getp.n == |pending[0]| && (getp.next == null <==> |pending| == 1)
    {
      assert Holds(list, 0, pending[0]);
    }
  }
}
