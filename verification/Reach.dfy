/** Paths and connectedness under a relation. */
module Reach {

  ghost predicate Path<T>(r: (T, T) -> bool, p: seq<T>) {
    && 0 < |p|
    && forall i :: 0 <= i < |p| - 1 ==> Link(r, p, i)
  }

  ghost predicate Link<T>(r: (T, T) -> bool, p: seq<T>, i: nat)
    requires i + 1 < |p|
  {
    r(p[i], p[i + 1])
  }

  ghost predicate PathFrom<T>(r: (T, T) -> bool, p: seq<T>, a: T, b: T) {
    Path(r, p) && p[0] == a && p[|p| - 1] == b
  }

  /** b can be reached from a by a (possibly empty) path. */
  ghost predicate Connected<T(!new)>(r: (T, T) -> bool, a: T, b: T) {
    exists p :: PathFrom(r, p, a, b)
  }

  ghost predicate Symmetric<T(!new)>(r: (T, T) -> bool) {
    forall a, b :: r(a, b) ==> r(b, a)
  }

  lemma Refl<T(!new)>(r: (T, T) -> bool, a: T)
    ensures Connected(r, a, a)
  {
    assert PathFrom(r, [a], a, a);
  }

  lemma PathExtend<T(!new)>(r: (T, T) -> bool, p: seq<T>, b: T)
    requires Path(r, p) && r(p[|p| - 1], b)
    ensures Path(r, p + [b])
  {
    forall i | 0 <= i < |p + [b]| - 1
      ensures Link(r, p + [b], i)
    {
      assert i < |p| - 1 ==> Link(r, p, i);
    }
  }

  lemma Extend<T(!new)>(r: (T, T) -> bool, a: T, b: T, c: T)
    requires Connected(r, a, b) && r(b, c)
    ensures Connected(r, a, c)
  {
    var p :| PathFrom(r, p, a, b);
    PathExtend(r, p, c);
    assert PathFrom(r, p + [c], a, c);
  }

  lemma PathPrefix<T(!new)>(r: (T, T) -> bool, p: seq<T>, n: nat)
    requires Path(r, p) && 0 < n <= |p|
    ensures Path(r, p[..n])
  {
    forall i | 0 <= i < n - 1
      ensures Link(r, p[..n], i)
    {
      assert Link(r, p, i);
    }
  }

  lemma {:induction false} PathTrans<T(!new)>(r: (T, T) -> bool, a: T, b: T, p: seq<T>, c: T)
    requires Connected(r, a, b) && PathFrom(r, p, b, c)
    ensures Connected(r, a, c)
    decreases |p|
  {
    if 1 < |p| {
      var q := p[..|p| - 1];
      PathPrefix(r, p, |p| - 1);
      PathTrans(r, a, b, q, q[|q| - 1]);
      assert Link(r, p, |p| - 2);
      Extend(r, a, q[|q| - 1], c);
    }
  }

  lemma Trans<T(!new)>(r: (T, T) -> bool, a: T, b: T, c: T)
    requires Connected(r, a, b) && Connected(r, b, c)
    ensures Connected(r, a, c)
  {
    var p :| PathFrom(r, p, b, c);
    PathTrans(r, a, b, p, c);
  }

  lemma {:induction false} PathSym<T(!new)>(r: (T, T) -> bool, p: seq<T>, a: T, b: T)
    requires Symmetric(r) && PathFrom(r, p, a, b)
    ensures Connected(r, b, a)
    decreases |p|
  {
    Refl(r, b);
    if 1 < |p| {
      var q := p[..|p| - 1];
      PathPrefix(r, p, |p| - 1);
      var c := q[|q| - 1];
      PathSym(r, q, a, c);
      assert Link(r, p, |p| - 2);
      Extend(r, b, b, c);
      Trans(r, b, c, a);
    }
  }

  lemma Sym<T(!new)>(r: (T, T) -> bool, a: T, b: T)
    requires Symmetric(r) && Connected(r, a, b)
    ensures Connected(r, b, a)
  {
    var p :| PathFrom(r, p, a, b);
    PathSym(r, p, a, b);
  }

  /** A set that no step leaves. */
  ghost predicate Closed<T(!new)>(r: (T, T) -> bool, s: iset<T>) {
    forall a, b :: a in s && r(a, b) ==> b in s
  }

  lemma {:induction false} PathStays<T(!new)>(r: (T, T) -> bool, s: iset<T>, p: seq<T>, a: T, b: T)
    requires Closed(r, s) && a in s && PathFrom(r, p, a, b)
    ensures b in s
    decreases |p|
  {
    if 1 < |p| {
      var q := p[..|p| - 1];
      PathPrefix(r, p, |p| - 1);
      PathStays(r, s, q, a, q[|q| - 1]);
      assert Link(r, p, |p| - 2);
    }
  }

  lemma Stays<T(!new)>(r: (T, T) -> bool, s: iset<T>, a: T, b: T)
    requires Closed(r, s) && a in s && Connected(r, a, b)
    ensures b in s
  {
    var p :| PathFrom(r, p, a, b);
    PathStays(r, s, p, a, b);
  }
}
