/** Sums over some of the entries of a vector, in whatever order they are met. */
module Sums {
  import opened Ranking

  function Total(v: seq<Score>, n: nat): Score
    requires n <= |v|
  {
    if n == 0 then 0.0 else Total(v, n - 1) + v[n - 1]
  }

  /** The sum of those of the first n entries whose indices are in `s`. */
  function MaskedTo(v: seq<Score>, s: set<nat>, n: nat): Score
    requires n <= |v|
  {
    if n == 0 then 0.0
    else MaskedTo(v, s, n - 1) + if n - 1 in s then v[n - 1] else 0.0
  }

  function Masked(v: seq<Score>, s: set<nat>): Score
  {
    MaskedTo(v, s, |v|)
  }

  lemma {:induction false} MaskedNoneTo(v: seq<Score>, n: nat)
    requires n <= |v|
    ensures MaskedTo(v, {}, n) == 0.0
  {
    if 0 < n {
      MaskedNoneTo(v, n - 1);
    }
  }

  lemma MaskedNone(v: seq<Score>)
    ensures Masked(v, {}) == 0.0
  {
    MaskedNoneTo(v, |v|);
  }

  lemma {:induction false} MaskedMonotoneTo(v: seq<Score>, s: set<nat>, w: seq<Score>, t: set<nat>, n: nat)
    requires n <= |v| == |w|
    requires forall i :: 0 <= i < n && i in s ==> i in t && v[i] <= w[i]
    ensures MaskedTo(v, s, n) <= MaskedTo(w, t, n)
  {
    if 0 < n {
      MaskedMonotoneTo(v, s, w, t, n - 1);
    }
  }

  lemma MaskedMonotone(v: seq<Score>, s: set<nat>, w: seq<Score>, t: set<nat>)
    requires |v| == |w|
    requires forall i :: 0 <= i < |v| && i in s ==> i in t && v[i] <= w[i]
    ensures Masked(v, s) <= Masked(w, t)
  {
    MaskedMonotoneTo(v, s, w, t, |v|);
  }

  lemma {:induction false} MaskedAddTo(v: seq<Score>, s: set<nat>, j: nat, n: nat)
    requires j < n <= |v| && j !in s
    ensures MaskedTo(v, s + {j}, n) == MaskedTo(v, s, n) + v[j]
  {
    if j == n - 1 {
      MaskedMonotoneTo(v, s, v, s + {j}, n - 1);
      MaskedMonotoneTo(v, s + {j}, v, s, n - 1);
    } else {
      MaskedAddTo(v, s, j, n - 1);
    }
  }

  lemma MaskedAdd(v: seq<Score>, s: set<nat>, j: nat)
    requires j < |v| && j !in s
    ensures Masked(v, s + {j}) == Masked(v, s) + v[j]
  {
    MaskedAddTo(v, s, j, |v|);
  }

  /** Entries that are zero may be left out of a sum. */
  lemma {:induction false} MaskedTotal(v: seq<Score>, s: set<nat>, n: nat)
    requires n <= |v| && forall i :: 0 <= i < n && i !in s ==> v[i] == 0.0
    ensures Total(v, n) == MaskedTo(v, s, n)
  {
    if 0 < n {
      MaskedTotal(v, s, n - 1);
    }
  }

  function CountTo(v: seq<nat>, n: nat): nat
    requires n <= |v|
  {
    if n == 0 then 0 else CountTo(v, n - 1) + v[n - 1]
  }

  function Count(v: seq<nat>): nat
  {
    CountTo(v, |v|)
  }

  lemma {:induction false} CountMonotoneTo(v: seq<nat>, w: seq<nat>, n: nat)
    requires n <= |v| == |w| && forall i :: 0 <= i < n ==> v[i] <= w[i]
    ensures CountTo(v, n) <= CountTo(w, n)
    ensures (exists i :: 0 <= i < n && v[i] < w[i]) ==> CountTo(v, n) < CountTo(w, n)
  {
    if 0 < n {
      CountMonotoneTo(v, w, n - 1);
    }
  }

  lemma CountMonotone(v: seq<nat>, w: seq<nat>)
    requires |v| == |w| && forall i :: 0 <= i < |v| ==> v[i] <= w[i]
    ensures Count(v) <= Count(w)
    ensures (exists i :: 0 <= i < |v| && v[i] < w[i]) ==> Count(v) < Count(w)
  {
    CountMonotoneTo(v, w, |v|);
  }

  lemma {:induction false} CountUpdateTo(v: seq<nat>, i: nat, x: nat, n: nat)
    requires i < n <= |v|
    ensures CountTo(v[i := x], n) == CountTo(v, n) - v[i] + x
  {
    if i == n - 1 {
      CountMonotoneTo(v, v[i := x], i);
      CountMonotoneTo(v[i := x], v, i);
    } else {
      CountUpdateTo(v, i, x, n - 1);
    }
  }

  lemma CountUpdate(v: seq<nat>, i: nat, x: nat)
    requires i < |v|
    ensures Count(v[i := x]) == Count(v) - v[i] + x
  {
    CountUpdateTo(v, i, x, |v|);
  }
}
