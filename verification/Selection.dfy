/** The selection sampling of mkmap.c (algorithm S of section 3.4.2 of Knuth, The Art of Computer
    Programming): of M candidate sites, visited once each, choose N. */
module Selection {

  /** The draw r takes a site when `left` sites are left and `need` of them are still to be taken. */
  predicate Takes(r: nat, left: int, need: int) {
    0 < left && r % left < need
  }

  /** How many sites are still to be taken after t of the M sites have been visited. */
  function Need(N: int, M: int, draw: nat -> nat, t: nat): int {
    if t == 0 then N
    else Need(N, M, draw, t - 1) - if Takes(draw(t - 1), M - (t - 1), Need(N, M, draw, t - 1)) then 1 else 0
  }

  /** There are always enough sites left, for every stream of draws. */
  lemma {:induction false} NeedBounds(N: int, M: int, draw: nat -> nat, t: nat)
    requires 0 <= N <= M && t <= M
    ensures 0 <= Need(N, M, draw, t) <= M - t
  {
    if 0 < t {
      NeedBounds(N, M, draw, t - 1);
      var r, left := draw(t - 1), M - (t - 1);
      assert 0 <= r % left < left;
    }
  }

  /** The stream that puts every site off as long as possible. */
  function Reluctant(M: nat): nat -> nat {
    (t: nat) => if t < M then M - t - 1 else 0
  }

  lemma {:induction false} ReluctantNeeds(N: int, M: nat, t: nat)
    requires 0 <= N <= M && t <= M
    ensures Need(N, M, Reluctant(M), t) == if N <= M - t then N else M - t
  {
    if 0 < t {
      ReluctantNeeds(N, M, t - 1);
      SmallMod(M - t, M - (t - 1));
    }
  }

  lemma SmallMod(a: int, b: int)
    requires 0 <= a < b
    ensures a % b == a
  {
  }

  /** A scan that leaves out the last sites takes N sites on every stream if and only if N is 0 or it
      leaves out no site. */
  lemma PartialScanTakesAll(N: int, M: nat, seen: nat)
    requires 0 <= N <= M && seen <= M
    ensures (forall draw: nat -> nat :: Need(N, M, draw, seen) == 0) <==> N == 0 || seen == M
  {
    forall draw: nat -> nat
      ensures 0 <= Need(N, M, draw, seen) <= M - seen && (N == 0 ==> Need(N, M, draw, seen) == 0)
    {
      NeedBounds(N, M, draw, seen);
      if N == 0 {
        NeedNothing(M, draw, seen);
      }
    }
    ReluctantNeeds(N, M, seen);
  }

  lemma {:induction false} NeedNothing(M: int, draw: nat -> nat, t: nat)
    ensures Need(0, M, draw, t) == 0
  {
    if 0 < t {
      NeedNothing(M, draw, t - 1);
      if 0 < M - (t - 1) {
        assert draw(t - 1) % (M - (t - 1)) >= 0;
      }
    }
  }

  // ---------------------------------------------------------------- how likely every selection is

  /** The stream that begins with a list of draws. */
  function Stream(draws: seq<nat>): nat -> nat {
    (t: nat) => if t < |draws| then draws[t] else 0
  }

  /** The list has one draw for each site, below the number of sites left there. */
  predicate FairDraws(draws: seq<nat>) {
    forall i :: 0 <= i < |draws| ==> draws[i] < |draws| - i
  }

  /** Of the first sites, the scan takes just those that are marked in bits. */
  ghost predicate ScanTakes(N: int, draws: seq<nat>, bits: seq<bool>) {
    && |bits| <= |draws|
    && forall k :: 0 <= k < |bits| ==> SiteTaken(N, draws, k) == bits[k]
  }

  predicate SiteTaken(N: int, draws: seq<nat>, k: nat) {
    k < |draws| && Takes(draws[k], |draws| - k, Need(N, |draws|, Stream(draws), k))
  }

  function Ones(bits: seq<bool>): nat {
    if bits == [] then 0 else (if bits[0] then 1 else 0) + Ones(bits[1..])
  }

  /** After the first site the scan goes on as a scan of the others. */
  lemma {:induction false} NeedTail(N: int, draws: seq<nat>, t: nat)
    requires draws != []
    ensures Need(N, |draws|, Stream(draws), t + 1)
         == Need(if SiteTaken(N, draws, 0) then N - 1 else N, |draws| - 1, Stream(draws[1..]), t)
  {
    if 0 < t {
      NeedTail(N, draws, t - 1);
      assert t < |draws| ==> draws[1..][t - 1] == draws[t];
    } else {
      assert Need(N, |draws|, Stream(draws), 0) == N;
    }
  }

  lemma SiteTakenTail(N: int, draws: seq<nat>, k: nat)
    requires draws != [] && 0 < k
    ensures SiteTaken(N, draws, k) == SiteTaken(if SiteTaken(N, draws, 0) then N - 1 else N, draws[1..], k - 1)
  {
    hide Need, Takes;
    NeedTail(N, draws, k - 1);
  }

  lemma ScanTakesTail(N: int, draws: seq<nat>, bits: seq<bool>)
    requires draws != [] && bits != []
    ensures ScanTakes(N, draws, bits)
       <==> SiteTaken(N, draws, 0) == bits[0] && ScanTakes(if bits[0] then N - 1 else N, draws[1..], bits[1..])
  {
    hide SiteTaken;
    forall k: nat | 0 < k
      ensures SiteTaken(N, draws, k) == SiteTaken(if SiteTaken(N, draws, 0) then N - 1 else N, draws[1..], k - 1)
    {
      SiteTakenTail(N, draws, k);
    }
    var next := if bits[0] then N - 1 else N;
    if ScanTakes(N, draws, bits) {
      forall k | 0 <= k < |bits[1..]|
        ensures SiteTaken(next, draws[1..], k) == bits[1..][k]
      {
        assert SiteTaken(N, draws, k + 1) == bits[k + 1];
      }
    }
    if SiteTaken(N, draws, 0) == bits[0] && ScanTakes(next, draws[1..], bits[1..]) {
      forall k | 0 <= k < |bits|
        ensures SiteTaken(N, draws, k) == bits[k]
      {
        if 0 < k {
          assert SiteTaken(next, draws[1..], k - 1) == bits[1..][k - 1];
        }
      }
    }
  }

  /** All fair lists of draws for M sites. */
  ghost function AllLists(M: nat): set<seq<nat>> {
    if M == 0 then {[]} else Heads(Below(0, M), AllLists(M - 1))
  }

  /** All fair lists of draws for M sites with which the scan takes just the marked ones of the first sites. */
  ghost function Lists(need: int, M: nat, bits: seq<bool>): set<seq<nat>>
    requires |bits| <= M
    decreases bits
  {
    if bits == [] then AllLists(M) else
      Heads(Range(need, M, bits[0]), Lists(if bits[0] then need - 1 else need, M - 1, bits[1..]))
  }

  ghost function Range(need: int, left: nat, take: bool): (s: set<nat>)
    ensures forall r :: r in s <==> 0 <= r < left && (r < need <==> take)
  {
    var n := if need < 0 then 0 else if need > left then left else need;
    if take then Below(0, n) else Below(n, left)
  }

  ghost function Below(lo: nat, hi: nat): (s: set<nat>)
    ensures forall r :: r in s <==> lo <= r < hi
    ensures |s| == if lo <= hi then hi - lo else 0
  {
    if lo < hi then Below(lo, hi - 1) + {hi - 1} else {}
  }

  ghost function Heads(heads: set<nat>, tails: set<seq<nat>>): set<seq<nat>> {
    set h, t | h in heads && t in tails :: [h] + t
  }

  lemma {:induction false} AllListsFair(M: nat, draws: seq<nat>)
    ensures draws in AllLists(M) <==> |draws| == M && FairDraws(draws)
  {
    if M != 0 && draws != [] {
      AllListsFair(M - 1, draws[1..]);
      FairTail(draws);
      HeadsMeaning(Below(0, M), AllLists(M - 1), draws);
    }
  }

  /** Lists is what it claims to be. */
  lemma {:induction false} ListsTake(N: int, M: nat, bits: seq<bool>, draws: seq<nat>)
    requires |bits| <= M
    ensures draws in Lists(N, M, bits) <==> |draws| == M && FairDraws(draws) && ScanTakes(N, draws, bits)
    decreases bits
  {
    hide FairDraws, ScanTakes, Heads, Need;
    if bits == [] {
      AllListsFair(M, draws);
      NothingMarked(N, draws);
    } else if draws == [] {
      var next := if bits[0] then N - 1 else N;
      NoEmptyList(Range(N, M, bits[0]), Lists(next, M - 1, bits[1..]));
    } else {
      var next := if bits[0] then N - 1 else N;
      ListsTake(next, M - 1, bits[1..], draws[1..]);
      FairTail(draws);
      HeadsMeaning(Range(N, M, bits[0]), Lists(next, M - 1, bits[1..]), draws);
      ScanTakesTail(N, draws, bits);
      if draws[0] < |draws| {
        FirstTaken(N, draws);
      }
    }
  }

  lemma NothingMarked(N: int, draws: seq<nat>)
    ensures ScanTakes(N, draws, [])
  {
  }

  lemma FirstTaken(N: int, draws: seq<nat>)
    requires draws != [] && draws[0] < |draws|
    ensures SiteTaken(N, draws, 0) <==> draws[0] < N
  {
    SmallMod(draws[0], |draws|);
  }

  lemma HeadsMeaning(heads: set<nat>, tails: set<seq<nat>>, draws: seq<nat>)
    requires draws != []
    ensures draws in Heads(heads, tails) <==> draws[0] in heads && draws[1..] in tails
  {
    assert draws == [draws[0]] + draws[1..];
    if draws in Heads(heads, tails) {
      var h, t :| h in heads && t in tails && [h] + t == draws;
      assert ([h] + t)[1..] == t;
    }
  }

  lemma FairTail(draws: seq<nat>)
    requires draws != []
    ensures FairDraws(draws) <==> draws[0] < |draws| && FairDraws(draws[1..])
  {
    if FairDraws(draws) {
      forall i | 0 <= i < |draws[1..]|
        ensures draws[1..][i] < |draws[1..]| - i
      {
        assert draws[i + 1] < |draws| - (i + 1);
      }
    }
    if draws[0] < |draws| && FairDraws(draws[1..]) {
      forall i | 0 <= i < |draws|
        ensures draws[i] < |draws| - i
      {
        assert 0 < i ==> draws[1..][i - 1] < |draws[1..]| - (i - 1);
      }
    }
  }

  function Factorial(n: nat): nat {
    if n == 0 then 1 else n * Factorial(n - 1)
  }

  lemma {:induction false} HeadsSize(heads: set<nat>, tails: set<seq<nat>>)
    ensures |Heads(heads, tails)| == |heads| * |tails|
    decreases heads
  {
    hide Heads;
    if heads == {} {
      NoHeads(tails);
    } else {
      var h :| h in heads;
      var rest := heads - {h};
      HeadsSize(rest, tails);
      OneHead(h, tails);
      HeadsSplit(h, rest, tails);
      assert heads == rest + {h};
      OneMore(|rest|, |tails|);
    }
  }

  lemma OneMore(a: nat, b: nat)
    ensures (a + 1) * b == a * b + b
  {
  }

  lemma NoHeads(tails: set<seq<nat>>)
    ensures Heads({}, tails) == {}
  {
  }

  lemma HeadsSplit(h: nat, rest: set<nat>, tails: set<seq<nat>>)
    requires h !in rest
    ensures Heads(rest + {h}, tails) == Heads(rest, tails) + Heads({h}, tails)
    ensures Heads(rest, tails) !! Heads({h}, tails)
  {
    forall s
      ensures s in Heads(rest + {h}, tails) <==> s in Heads(rest, tails) || s in Heads({h}, tails)
      ensures !(s in Heads(rest, tails) && s in Heads({h}, tails))
    {
      if s != [] {
        HeadsMeaning(rest + {h}, tails, s);
        HeadsMeaning(rest, tails, s);
        HeadsMeaning({h}, tails, s);
      }
    }
  }

  lemma {:induction false} OneHead(h: nat, tails: set<seq<nat>>)
    ensures |Heads({h}, tails)| == |tails|
    decreases tails
  {
    hide Heads;
    if tails == {} {
      NoTails({h});
    } else {
      var t :| t in tails;
      var rest := tails - {t};
      OneHead(h, rest);
      OneTail(h, rest, t);
      assert tails == rest + {t};
    }
  }

  lemma NoTails(heads: set<nat>)
    ensures Heads(heads, {}) == {}
  {
  }

  lemma OneTail(h: nat, rest: set<seq<nat>>, t: seq<nat>)
    requires t !in rest
    ensures Heads({h}, rest + {t}) == Heads({h}, rest) + {[h] + t}
    ensures [h] + t !in Heads({h}, rest)
  {
    hide Heads;
    forall s
      ensures s in Heads({h}, rest + {t}) <==> s in Heads({h}, rest) + {[h] + t}
      ensures s in Heads({h}, rest) ==> s != [h] + t
    {
      assert ([h] + t)[1..] == t;
      if s == [] {
        NoEmptyList({h}, rest);
        NoEmptyList({h}, rest + {t});
      } else {
        HeadsMeaning({h}, rest + {t}, s);
        HeadsMeaning({h}, rest, s);
        assert s == [s[0]] + s[1..];
      }
    }
  }

  lemma NoEmptyList(heads: set<nat>, tails: set<seq<nat>>)
    ensures [] !in Heads(heads, tails)
  {
  }

  /** The number of ways to choose k of n. */
  function Choose(n: nat, k: int): nat {
    if k < 0 || k > n then 0 else if k == 0 || k == n then 1 else Choose(n - 1, k - 1) + Choose(n - 1, k)
  }

  lemma {:induction false} ChooseFactorials(n: nat, k: nat)
    requires k <= n
    ensures Factorial(k) * Factorial(n - k) * Choose(n, k) == Factorial(n)
  {
    if 0 < k < n {
      ChooseFactorials(n - 1, k - 1);
      ChooseFactorials(n - 1, k);
      Pascal(n, k, Factorial(k - 1), Factorial(n - k - 1), Factorial(n - 1), Choose(n - 1, k - 1), Choose(n - 1, k));
    } else {
      assert Factorial(0) == 1;
    }
  }

  lemma Pascal(n: nat, k: nat, fk: nat, fr: nat, fn: nat, c: nat, c': nat)
    requires 0 < k < n && fk * ((n - k) * fr) * c == fn && (k * fk) * fr * c' == fn
    ensures (k * fk) * ((n - k) * fr) * (c + c') == n * fn
  {
    var r := n - k;
    assert (k * fk) * (r * fr) * c == k * (fk * (r * fr) * c);
    assert (k * fk) * (r * fr) * c' == r * ((k * fk) * fr * c');
    assert (k * fk) * (r * fr) * (c + c') == (k * fk) * (r * fr) * c + (k * fk) * (r * fr) * c';
    assert k * fn + r * fn == n * fn;
  }

  lemma {:induction false} AllListsSize(M: nat)
    ensures |AllLists(M)| == Factorial(M)
  {
    hide Heads;
    if M != 0 {
      AllListsSize(M - 1);
      HeadsSize(Below(0, M), AllLists(M - 1));
    }
  }

  lemma ListsSize(need: int, M: nat, bits: seq<bool>)
    requires bits != [] && |bits| <= M && 0 <= need <= M
    ensures |Lists(need, M, bits)| == (if bits[0] then need else M - need)
                                      * |Lists(if bits[0] then need - 1 else need, M - 1, bits[1..])|
  {
    hide Heads;
    HeadsSize(Range(need, M, bits[0]), Lists(if bits[0] then need - 1 else need, M - 1, bits[1..]));
  }

  lemma {:induction false} OnesBound(bits: seq<bool>)
    ensures Ones(bits) <= |bits|
  {
    if bits != [] {
      OnesBound(bits[1..]);
    }
  }

  lemma Multiplied(x: nat, f: nat, g: nat, c: nat)
    ensures x * (f * g * c) == (x * f) * g * c == f * (x * g) * c
  {
    assert x * (f * g * c) == x * f * g * c;
    assert f * (x * g) == x * f * g;
  }

  /** A selection of k of the sites that a scan visits is made by N! * (M - N)! * C(M - seen, N - k) of the M!
      fair lists of draws, so all selections of as many sites are equally likely. */
  lemma {:induction false} Chances(N: nat, M: nat, bits: seq<bool>)
    requires N <= M && |bits| <= M
    ensures |Lists(N, M, bits)| == Factorial(N) * Factorial(M - N) * Choose(M - |bits|, N - Ones(bits))
    decreases bits
  {
    hide Lists, Factorial, Choose;
    if bits == [] {
      NoneSeen(N, M);
      AllListsSize(M);
      ChooseFactorials(M, N);
    } else {
      ListsSize(N, M, bits);
      var c := Choose(M - |bits|, N - Ones(bits));
      if bits[0] {
        if 0 < N {
          Chances(N - 1, M - 1, bits[1..]);
          FactorialStep(N);
          Multiplied(N, Factorial(N - 1), Factorial(M - N), c);
        } else {
          NoChoice(M - |bits|, N - Ones(bits));
        }
      } else if N < M {
        Chances(N, M - 1, bits[1..]);
        FactorialStep(M - N);
        Multiplied(M - N, Factorial(N), Factorial(M - N - 1), c);
      } else {
        OnesBound(bits[1..]);
        NoChoice(M - |bits|, N - Ones(bits));
      }
    }
  }

  lemma NoneSeen(N: int, M: nat)
    ensures Lists(N, M, []) == AllLists(M) && Ones([]) == 0
  {
  }

  lemma FactorialStep(n: nat)
    requires 0 < n
    ensures Factorial(n) == n * Factorial(n - 1)
  {
  }

  lemma NoChoice(n: nat, k: int)
    requires k < 0 || k > n
    ensures Choose(n, k) == 0
  {
  }
}
