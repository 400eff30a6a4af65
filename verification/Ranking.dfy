/** The order results come back in, what the best k of a set of results are, and
    the bounded heap that keeps them. */
module Ranking {

  /** Exact, non-negative relevance. */
  type Score = r: real | r >= 0.0

  datatype Result = Result(docid: nat, score: Score)

  /** Higher score first, the smaller docid first among equal scores. */
  predicate Better(a: Result, b: Result)
  {
    a.score > b.score || (a.score == b.score && a.docid < b.docid)
  }

  ghost predicate Ranked(s: seq<Result>)
  {
    forall i, j :: 0 <= i < j < |s| ==> Better(s[i], s[j])
  }

  /** `top` lists the k best members of `all`, best first: whatever it leaves out
      is behind everything in it, and is left out only because k are in it. */
  ghost predicate IsTopK(top: seq<Result>, all: set<Result>, k: nat)
  {
    && Ranked(top)
    && |top| <= k
    && (forall r :: r in top ==> r in all)
    && (forall r :: r in all && r !in top ==> |top| == k && forall t :: t in top ==> Better(t, r))
  }

  /** There is one such list only. */
  lemma {:induction false} TopKUnique(a: seq<Result>, b: seq<Result>, all: set<Result>, k: nat)
    requires IsTopK(a, all, k) && IsTopK(b, all, k)
    ensures a == b
    decreases k
  {
    assert (a != [] ==> a[0] in a) && (b != [] ==> b[0] in b);
    if a != [] && b != [] {
      assert a[0] in all && b[0] in all;
      TopKUnique(a[1..], b[1..], all - {a[0]}, k - 1);
    }
  }

  /** It has as many members as can be had. */
  lemma {:induction false} TopKSize(top: seq<Result>, all: set<Result>, k: nat)
    requires IsTopK(top, all, k)
    ensures |top| == if |all| < k then |all| else k
    decreases |top|
  {
    if top == [] {
      if all != {} {
        var r :| r in all;
        assert r !in top;
      }
    } else {
      TopKSize(top[1..], all - {top[0]}, k - 1);
    }
  }

  ghost predicate IsBest(r: Result, all: set<Result>)
  {
    r in all && forall s :: s in all ==> s == r || Better(r, s)
  }

  lemma {:induction false} SomeBest(all: set<Result>)
    requires all != {}
    ensures exists r :: IsBest(r, all)
    decreases |all|
  {
    var r :| r in all;
    var rest := all - {r};
    if rest != {} {
      SomeBest(rest);
      var other :| IsBest(other, rest);
      if Better(other, r) {
        assert IsBest(other, all);
      } else {
        assert forall s :: s in all ==> s == r || s in rest;
        assert IsBest(r, all);
      }
    } else {
      assert IsBest(r, all);
    }
  }

  /** The k best of a set of results. */
  ghost function Best(all: set<Result>, k: nat): (top: seq<Result>)
    ensures IsTopK(top, all, k)
    decreases k
  {
    if k == 0 || all == {} then []
    else
      SomeBest(all);
      var r :| IsBest(r, all);
      var rest := Best(all - {r}, k - 1);
      [r] + rest
  }

  /** Leaving results out that score below everything kept changes nothing. This is
      what makes pruning safe. */
  lemma PruningIsSafe(top: seq<Result>, seen: set<Result>, all: set<Result>, k: nat, threshold: Score)
    requires IsTopK(top, seen, k) && seen <= all
    requires 0.0 < threshold ==> |top| == k && forall t :: t in top ==> t.score >= threshold
    requires forall r :: r in all - seen ==> r.score < threshold
    ensures IsTopK(top, all, k)
  {
    forall r | r in all && r !in top
      ensures |top| == k && forall t :: t in top ==> Better(t, r)
    {
      if r !in seen {
        assert r in all - seen;
      }
    }
  }

  /** Where a candidate goes in a ranked list. */
  function InsertRanked(s: seq<Result>, r: Result): (out: seq<Result>)
    requires Ranked(s) && r !in s
    ensures Ranked(out) && |out| == |s| + 1
    ensures forall t :: t in out <==> t == r || t in s
  {
    if s == [] then [r]
    else if Better(r, s[0]) then
      assert forall i :: 0 < i < |s| ==> Better(s[0], s[i]);
      [r] + s
    else
      var rest := InsertRanked(s[1..], r);
      assert forall t :: t in rest ==> Better(s[0], t);
      [s[0]] + rest
  }

  lemma DisplaceWorst(top: seq<Result>, all: set<Result>, k: nat, r: Result)
    requires IsTopK(top, all, k) && |top| == k > 0 && r !in all && Better(r, top[k - 1])
    ensures r !in top[..k - 1] && Ranked(top[..k - 1])
    ensures IsTopK(InsertRanked(top[..k - 1], r), all + {r}, k)
    ensures var out := InsertRanked(top[..k - 1], r); out[k - 1].score >= top[k - 1].score
  {
    var worst, out := top[k - 1], InsertRanked(top[..k - 1], r);
    assert forall t :: t in top <==> t == worst || t in top[..k - 1];
    assert forall t :: t in out ==> Better(t, worst);
    forall x | x in all + {r} && x !in out
      ensures forall t :: t in out ==> Better(t, x)
    {
      assert x == worst || Better(worst, x) by { assert worst in top; }
    }
    assert out[k - 1] in out;
  }

  lemma BehindWorst(top: seq<Result>, all: set<Result>, k: nat, r: Result)
    requires IsTopK(top, all, k) && |top| == k > 0 && r !in all && !Better(r, top[k - 1])
    ensures IsTopK(top, all + {r}, k)
  {
    assert top[k - 1] in top;
    assert Better(top[k - 1], r);
  }

  // ---- the score to beat ----

  /** The score of the k-th best of what was pushed, or zero before there are k. */
  ghost function ThresholdOf(pushed: set<Result>, k: nat): Score
  {
    var best := Best(pushed, k);
    if k == 0 || |best| < k then 0.0 else best[k - 1].score
  }

  /** Seen in any list of the k best. */
  lemma ThresholdReached(top: seq<Result>, pushed: set<Result>, k: nat)
    requires 1 <= k && IsTopK(top, pushed, k)
    ensures ThresholdOf(pushed, k) == if |top| < k then 0.0 else top[k - 1].score
    ensures 0.0 < ThresholdOf(pushed, k) ==> |top| == k
    ensures |top| == k ==> forall t :: t in top ==> t.score >= ThresholdOf(pushed, k)
  {
    TopKUnique(top, Best(pushed, k), pushed, k);
  }

  /** It never falls. */
  lemma ThresholdGrows(pushed: set<Result>, r: Result, k: nat)
    requires 1 <= k && r !in pushed
    ensures ThresholdOf(pushed, k) <= ThresholdOf(pushed + {r}, k)
  {
    var top := Best(pushed, k);
    if |top| == k {
      if Better(r, top[k - 1]) {
        DisplaceWorst(top, pushed, k, r);
        ThresholdReached(InsertRanked(top[..k - 1], r), pushed + {r}, k);
      } else {
        BehindWorst(top, pushed, k, r);
        ThresholdReached(top, pushed + {r}, k);
      }
    }
  }

  /** The bounded min-heap. The library's priority queue is represented by the list
      of its members in comparator order, so that its top, the worst, is last. */
  class TopK {
    const k: nat
    var heap: seq<Result>
    ghost var pushed: set<Result>

    ghost predicate Valid()
      reads this
    {
      1 <= k && IsTopK(heap, pushed, k)
    }

    constructor (k: nat)
      requires 1 <= k
      ensures Valid() && this.k == k && heap == [] && pushed == {}
    {
      this.k := k;
      heap := [];
      pushed := {};
    }

    /** The score of the worst of k results, or zero before there are k. */
    function Threshold(): (t: Score)
      requires 1 <= k
      reads this
      ensures 0.0 < t ==> k <= |heap|
      ensures Valid() ==> t == ThresholdOf(pushed, k)
    {
      var t: Score := if |heap| < k then 0.0 else heap[|heap| - 1].score;
      assert Valid() ==> t == ThresholdOf(pushed, k) by {
        if Valid() {
          ThresholdReached(heap, pushed, k);
        }
      }
      t
    }

    method Push(docid: nat, score: Score)
      requires Valid() && Result(docid, score) !in pushed
      modifies this
      ensures Valid() && pushed == old(pushed) + {Result(docid, score)}
      ensures Threshold() >= old(Threshold())
    {
      var candidate := Result(docid, score);
      if |heap| < k {
        heap := InsertRanked(heap, candidate);
      } else if Better(candidate, heap[|heap| - 1]) {
        DisplaceWorst(heap, pushed, k, candidate);
        heap := InsertRanked(heap[..|heap| - 1], candidate);
      } else {
        BehindWorst(heap, pushed, k, candidate);
      }
      pushed := pushed + {candidate};
    }

    /** Pops worst first, then sorts what came out. */
    method Drain() returns (out: seq<Result>)
      requires Valid()
      modifies this
      ensures IsTopK(out, old(pushed), k) && out == old(heap)
      ensures heap == []
    {
      out := [];
      while heap != []
        invariant heap <= old(heap) && Ranked(heap)
        invariant forall r :: r in old(heap) <==> r in heap || r in out
        invariant forall i, j :: 0 <= i < j < |out| ==> out[i] != out[j]
        invariant forall i, r :: 0 <= i < |out| && r in heap ==> Better(r, out[i])
        invariant |out| + |heap| == |old(heap)|
        decreases |heap|
      {
        var worst := heap[|heap| - 1];
        assert forall r :: r in heap <==> r == worst || r in heap[..|heap| - 1];
        assert forall r :: r in heap[..|heap| - 1] ==> Better(r, worst);
        assert worst in heap;
        out := out + [worst];
        heap := heap[..|heap| - 1];
      }
      out := SortResults(out);
      assert forall r :: r in out <==> r in old(heap);
      TopKUnique(out, old(heap), old(pushed), k);
    }
  }

  /** The library sort under Better, on different results. */
  method SortResults(s: seq<Result>) returns (out: seq<Result>)
    requires forall i, j :: 0 <= i < j < |s| ==> s[i] != s[j]
    ensures Ranked(out) && |out| == |s|
    ensures forall r :: r in out <==> r in s
  {
    out := [];
    for n := 0 to |s|
      invariant Ranked(out) && |out| == n
      invariant forall r :: r in out <==> r in s[..n]
    {
      out := InsertRanked(out, s[n]);
      assert s[..n + 1] == s[..n] + [s[n]];
    }
    assert s[..|s|] == s;
  }
}
