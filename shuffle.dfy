/** The Fisher–Yates shuffle of the game's deck (`shuffleArray`).

    The source draws each swap partner with `Math.random`; here the draws are
    supplied as a sequence indexed like the array: `draws[i]` is the j that the
    loop picks when it is at index i, and it must lie in [0, i].  The loop runs
    for i = n-1 down to 1, so `draws[0]` (necessarily 0) is never consumed.

    The pure function `Shuffled` is the specification of the in-place method
    `ShuffleArray`; the lemmas below say that the result is a permutation of the
    input, that every permutation is reachable, and that on a deck without
    repeated elements different draws give different arrangements. */
module Shuffle {

  /** Applies `f` to every element. */
  function Map<T, U>(f: T -> U, s: seq<T>): (r: seq<U>)
    ensures |r| == |s|
    ensures forall i :: 0 <= i < |s| ==> r[i] == f(s[i])
  {
    seq(|s|, i requires 0 <= i < |s| => f(s[i]))
  }

  /** No element occurs twice. */
  predicate Distinct<T(==)>(s: seq<T>)
  {
    forall i, j :: 0 <= i < j < |s| ==> s[i] != s[j]
  }

  /** `draws` holds one draw per index of an array of length `n`, the draw
      for index i lying in [0, i], as `Math.floor(Math.random() * (i + 1))`
      does. */
  predicate ValidDraws(n: nat, draws: seq<nat>)
  {
    && |draws| == n
    && forall i :: 0 <= i < n ==> draws[i] <= i
  }

  /** The sequence `s` with cells i and j exchanged. */
  function Swap<T>(s: seq<T>, i: nat, j: nat): (r: seq<T>)
    requires i < |s| && j < |s|
    ensures |r| == |s| && r[i] == s[j] && r[j] == s[i]
    ensures forall m {:trigger r[m]} :: 0 <= m < |s| && m != i && m != j ==> r[m] == s[m]
  {
    s[i := s[j]][j := s[i]]
  }

  /** What the shuffle loop leaves in an array holding `s`: the first iteration
      swaps the last cell with the cell its draw names; the last cell is never
      touched again, and the remaining iterations shuffle the rest. */
  function Shuffled<T>(s: seq<T>, draws: seq<nat>): (r: seq<T>)
    requires ValidDraws(|s|, draws)
    ensures |r| == |s|
    decreases |s|
  {
    if |s| <= 1 then s
    else
      var n := |s|;
      var t := Swap(s, n - 1, draws[n - 1]);
      Shuffled(t[..n - 1], draws[..n - 1]) + [t[n - 1]]
  }

  /** One step of the definition of `Shuffled`, for at least two elements. */
  lemma ShuffledUnfold<T>(s: seq<T>, draws: seq<nat>)
    requires |s| > 1 && ValidDraws(|s|, draws)
    ensures ValidDraws(|s| - 1, draws[..|s| - 1])
    ensures var t := Swap(s, |s| - 1, draws[|s| - 1]);
      Shuffled(s, draws) == Shuffled(t[..|s| - 1], draws[..|s| - 1]) + [t[|s| - 1]]
  {
  }

  /** What the array `s` will hold once the loop has done the iterations for
      indices i down to 1: the cells above i are final. */
  function Finish<T>(s: seq<T>, i: nat, draws: seq<nat>): seq<T>
    requires i < |s| && ValidDraws(|s|, draws)
  {
    assert ValidDraws(i + 1, draws[..i + 1]);
    Shuffled(s[..i + 1], draws[..i + 1]) + s[i + 1..]
  }

  /** One iteration of the loop in `ShuffleArray`, at index i: swapping with
      the cell drawn for i and moving on to i - 1 does not change the outcome. */
  lemma FinishStep<T>(s: seq<T>, i: nat, draws: seq<nat>)
    requires 0 < i < |s| && ValidDraws(|s|, draws)
    ensures Finish(Swap(s, i, draws[i]), i - 1, draws) == Finish(s, i, draws)
  {
    var after := Swap(s, i, draws[i]);
    ShuffledUnfold(s[..i + 1], draws[..i + 1]);
    assert Swap(s[..i + 1], i, draws[i]) == after[..i + 1];
    assert after[..i + 1][..i] == after[..i];
    assert draws[..i + 1][..i] == draws[..i];
    assert after[i..] == [after[i]] + s[i + 1..];
  }

  /** The destructuring swap `[array[i], array[j]] = [array[j], array[i]]`. */
  method SwapCells<T>(a: array<T>, i: nat, j: nat)
    requires i < a.Length && j < a.Length
    modifies a
    ensures a[..] == Swap(old(a[..]), i, j)
  {
    a[i], a[j] := a[j], a[i];
  }

  /** `shuffleArray`: the descending loop of swaps, in place.  Every swap is
      between cells i and j with 0 <= j <= i < a.Length. */
  method ShuffleArray<T>(a: array<T>, draws: seq<nat>)
    requires ValidDraws(a.Length, draws)
    modifies a
    ensures a[..] == Shuffled(old(a[..]), draws)
  {
    var i := a.Length - 1;
    if a.Length > 0 {
      assert a[..][..i + 1] == a[..] && a[..][i + 1..] == [] && draws[..i + 1] == draws;
    }
    while i > 0
      invariant -1 <= i < a.Length
      invariant a.Length > 0 ==> i >= 0
      invariant i >= 0 ==> Finish(a[..], i, draws) == Shuffled(old(a[..]), draws)
    {
      var j := draws[i];
      FinishStep(a[..], i, draws);
      SwapCells(a, i, j);
      i := i - 1;
    }
    if a.Length > 0 {
      assert a[..] == a[..1] + a[1..];
    }
  }

  /** `shuffleArray` permutes its argument: the shuffled deck holds the same
      elements, each as often as before. */
  lemma {:induction false} ShuffledPermutes<T>(s: seq<T>, draws: seq<nat>)
    requires ValidDraws(|s|, draws)
    ensures multiset(Shuffled(s, draws)) == multiset(s)
    decreases |s|
  {
    if |s| > 1 {
      var n := |s|;
      var t := Swap(s, n - 1, draws[n - 1]);
      ShuffledUnfold(s, draws);
      ShuffledPermutes(t[..n - 1], draws[..n - 1]);
      SwapPermutes(s, n - 1, draws[n - 1]);
      assert t == t[..n - 1] + [t[n - 1]];
    }
  }

  lemma SwapPermutes<T>(s: seq<T>, i: nat, j: nat)
    requires i < |s| && j < |s|
    ensures multiset(Swap(s, i, j)) == multiset(s)
  {
  }

  /** Arrays of length 0 or 1 are left as they are. */
  lemma ShuffledShortIsIdentity<T>(s: seq<T>, draws: seq<nat>)
    requires |s| <= 1 && ValidDraws(|s|, draws)
    ensures Shuffled(s, draws) == s
  {
  }

  /** Shuffling commutes with looking at one attribute of each element. */
  lemma {:induction false} ShuffledMap<T, U>(f: T -> U, s: seq<T>, draws: seq<nat>)
    requires ValidDraws(|s|, draws)
    ensures Map(f, Shuffled(s, draws)) == Shuffled(Map(f, s), draws)
    decreases |s|
  {
    if |s| > 1 {
      var n := |s|;
      var t := Swap(s, n - 1, draws[n - 1]);
      var u := Swap(Map(f, s), n - 1, draws[n - 1]);
      ShuffledUnfold(s, draws);
      ShuffledUnfold(Map(f, s), draws);
      assert Map(f, t[..n - 1]) == u[..n - 1];
      ShuffledMap(f, t[..n - 1], draws[..n - 1]);
      assert Map(f, Shuffled(s, draws)) == Map(f, Shuffled(t[..n - 1], draws[..n - 1])) + [f(t[n - 1])];
    }
  }

  /** Swapping two cells keeps the elements distinct. */
  lemma SwapDistinct<T>(s: seq<T>, i: nat, j: nat)
    requires i < |s| && j < |s| && Distinct(s)
    ensures Distinct(Swap(s, i, j))
  {
    var r := Swap(s, i, j);
    forall a, b | 0 <= a < b < |r| ensures r[a] != r[b] {
      var a' := if a == i then j else if a == j then i else a;
      var b' := if b == i then j else if b == j then i else b;
      assert r[a] == s[a'] && r[b] == s[b'] && a' != b';
    }
  }

  /** A deck without repeated elements stays so after shuffling. */
  lemma {:induction false} ShuffledDistinct<T>(s: seq<T>, draws: seq<nat>)
    requires ValidDraws(|s|, draws) && Distinct(s)
    ensures Distinct(Shuffled(s, draws))
    decreases |s|
  {
    if |s| > 1 {
      var n := |s|;
      var t := Swap(s, n - 1, draws[n - 1]);
      ShuffledUnfold(s, draws);
      SwapDistinct(s, n - 1, draws[n - 1]);
      var p := t[..n - 1];
      ShuffledDistinct(p, draws[..n - 1]);
      ShuffledPermutes(p, draws[..n - 1]);
      var q := Shuffled(p, draws[..n - 1]);
      assert t[n - 1] !in p;
      assert t[n - 1] !in multiset(q);
    }
  }

  /** Two permutations of each other that end in the same element are
      permutations of each other without it. */
  lemma DropLastPermutes<T>(u: seq<T>, t: seq<T>)
    requires multiset(u) == multiset(t) && |u| > 0 && |t| > 0
    requires u[|u| - 1] == t[|t| - 1]
    ensures multiset(u[..|u| - 1]) == multiset(t[..|t| - 1])
  {
    var x := u[|u| - 1];
    assert u == u[..|u| - 1] + [x];
    assert t == t[..|t| - 1] + [x];
    assert multiset(u[..|u| - 1]) == multiset(u) - multiset{x};
    assert multiset(t[..|t| - 1]) == multiset(t) - multiset{x};
  }

  /** Swapping into the last cell the element that `t` has there leaves, in
      front of it, a permutation of the rest of `t`. */
  lemma SwapToLastPermutes<T>(s: seq<T>, t: seq<T>, j: nat)
    requires multiset(s) == multiset(t) && 1 < |s| == |t| && j < |s|
    requires s[j] == t[|t| - 1]
    ensures multiset(Swap(s, |s| - 1, j)[..|s| - 1]) == multiset(t[..|t| - 1])
  {
    SwapPermutes(s, |s| - 1, j);
    DropLastPermutes(Swap(s, |s| - 1, j), t);
  }

  /** If `rest` shuffles the front of `s` (after cell j was swapped into the
      last cell) into the front of `t`, and cell j holds the last element of
      `t`, then `rest` followed by the draw j shuffles `s` into `t`. */
  lemma AppendDraw<T>(s: seq<T>, t: seq<T>, j: nat, rest: seq<nat>)
    requires 1 < |s| == |t| && j < |s| && s[j] == t[|t| - 1]
    requires ValidDraws(|s| - 1, rest)
    requires Shuffled(Swap(s, |s| - 1, j)[..|s| - 1], rest) == t[..|t| - 1]
    ensures ValidDraws(|s|, rest + [j]) && Shuffled(s, rest + [j]) == t
  {
    var draws := rest + [j];
    assert draws[..|s| - 1] == rest;
    ShuffledUnfold(s, draws);
    assert t == t[..|t| - 1] + [t[|t| - 1]];
  }

  /** The draws that shuffle `s` into `t`: at each index, the position of the
      element that `t` has there. */
  lemma {:induction false} DrawsFor<T>(s: seq<T>, t: seq<T>) returns (draws: seq<nat>)
    requires multiset(s) == multiset(t)
    ensures ValidDraws(|s|, draws) && Shuffled(s, draws) == t
    decreases |s|
  {
    assert |s| == |multiset(s)| == |t|;
    var n := |s|;
    if n <= 1 {
      draws := seq(n, _ => 0);
      if n == 1 {
        assert t[0] in multiset(s);
      }
    } else {
      var x := t[n - 1];
      assert x in multiset(s);
      var j :| 0 <= j < n && s[j] == x;
      var u := Swap(s, n - 1, j);
      SwapToLastPermutes(s, t, j);
      var rest := DrawsFor(u[..n - 1], t[..n - 1]);
      draws := rest + [j];
      AppendDraw(s, t, j, rest);
    }
  }

  /** Every arrangement of the same elements is the outcome of some draws:
      the shuffle can produce every permutation of its input. */
  lemma ShuffleReachesEveryPermutation<T>(s: seq<T>, t: seq<T>)
    requires multiset(s) == multiset(t)
    ensures exists draws :: ValidDraws(|s|, draws) && Shuffled(s, draws) == t
  {
    var draws := DrawsFor(s, t);
  }

  /** On a deck without repeated elements, two different sequences of draws
      never give the same arrangement; with the previous lemma, each of the
      n! arrangements comes from exactly one of the n! sequences of draws, so
      uniform draws give a uniform shuffle. */
  lemma {:induction false} ShuffleDrawsAreUnique<T>(s: seq<T>, d1: seq<nat>, d2: seq<nat>)
    requires Distinct(s)
    requires ValidDraws(|s|, d1) && ValidDraws(|s|, d2)
    requires Shuffled(s, d1) == Shuffled(s, d2)
    ensures d1 == d2
    decreases |s|
  {
    var n := |s|;
    if n > 1 {
      var t1 := Swap(s, n - 1, d1[n - 1]);
      var t2 := Swap(s, n - 1, d2[n - 1]);
      ShuffledUnfold(s, d1);
      ShuffledUnfold(s, d2);
      var r1 := Shuffled(t1[..n - 1], d1[..n - 1]);
      var r2 := Shuffled(t2[..n - 1], d2[..n - 1]);
      var whole := Shuffled(s, d1);
      assert whole == r1 + [t1[n - 1]] && whole == r2 + [t2[n - 1]];
      assert whole[n - 1] == t1[n - 1] == s[d1[n - 1]];
      assert whole[n - 1] == t2[n - 1] == s[d2[n - 1]];
      assert d1[n - 1] == d2[n - 1];
      assert r1 == whole[..n - 1] == r2;
      SwapDistinct(s, n - 1, d1[n - 1]);
      ShuffleDrawsAreUnique(t1[..n - 1], d1[..n - 1], d2[..n - 1]);
      assert d1 == d1[..n - 1] + [d1[n - 1]];
      assert d2 == d2[..n - 1] + [d2[n - 1]];
    } else if n == 1 {
      assert d1 == [0] == d2;
    }
  }
}
