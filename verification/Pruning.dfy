/** The steps of WAND and BlockMax-WAND on cursor positions: what a pivot settles,
    what a scored pivot settles, what a hopeless span settles. */
module Pruning {
  import opened Ranking
  import opened Postings
  import opened Sums
  import opened Query

  /** By docid, then by place in the vector of cursors. */
  ghost predicate Precedes(q: Query, pos: seq<nat>, i: nat, j: nat)
    requires i < |pos| == |q.lists| && j < |pos|
  {
    HeadAt(q, pos, i) < HeadAt(q, pos, j) || (HeadAt(q, pos, i) == HeadAt(q, pos, j) && i < j)
  }

  ghost predicate InRange(ids: seq<nat>, n: nat)
  {
    forall a :: 0 <= a < |ids| ==> ids[a] < n
  }

  ghost predicate InOrder(q: Query, pos: seq<nat>, ids: seq<nat>)
    requires |pos| == |q.lists| && InRange(ids, |pos|)
  {
    forall a, b :: 0 <= a < b < |ids| ==> Precedes(q, pos, ids[a], ids[b])
  }

  /** `ids` are the cursors with postings left. */
  ghost predicate AreLive(q: Query, pos: seq<nat>, ids: seq<nat>)
    requires |pos| == |q.lists|
  {
    InRange(ids, |pos|) && forall i: nat :: i < |pos| ==> (pos[i] < |q.lists[i].postings| <==> i in ids)
  }

  ghost function IdSet(ids: seq<nat>): set<nat>
  {
    set i | i in ids
  }

  lemma IdSetPush(ids: seq<nat>, n: nat)
    requires n < |ids| && forall a :: 0 <= a < n ==> ids[a] != ids[n]
    ensures IdSet(ids[..n + 1]) == IdSet(ids[..n]) + {ids[n]} && ids[n] !in IdSet(ids[..n])
  {
    assert ids[..n + 1] == ids[..n] + [ids[n]];
  }

  /** The sum the pivot search keeps, one cursor further. */
  lemma BoundPush(v: seq<Score>, ids: seq<nat>, n: nat)
    requires n < |ids| && ids[n] < |v| && forall a :: 0 <= a < n ==> ids[a] != ids[n]
    ensures Masked(v, IdSet(ids[..n + 1])) == Masked(v, IdSet(ids[..n])) + v[ids[n]]
  {
    IdSetPush(ids, n);
    MaskedAdd(v, IdSet(ids[..n]), ids[n]);
  }

  /** `n` is the first index at which the bounds in cursor order reach the threshold. */
  ghost predicate IsPivot(q: Query, ids: seq<nat>, n: nat, threshold: Score)
  {
    && n < |ids|
    && Masked(Maxima(q), IdSet(ids[..n + 1])) >= threshold
    && (0 < n ==> Masked(Maxima(q), IdSet(ids[..n])) < threshold)
  }

  /** Pivots never go back, and every document before the pivot is settled. */
  lemma PivotAdvances(q: Query, pos: seq<nat>, f: nat, pushed: set<Result>, threshold: Score,
                      ids: seq<nat>, n: nat)
    requires ValidQuery(q) && Frontier(q, pos, f, pushed, threshold)
    requires AreLive(q, pos, ids) && InOrder(q, pos, ids) && IsPivot(q, ids, n, threshold)
    ensures var p := HeadAt(q, pos, ids[n]);
      && f <= p < NO_DOCID && Matches(q, p)
      && AllPassedBefore(q, pos, p) && Frontier(q, pos, p, pushed, threshold)
  {
    var p, maxima := HeadAt(q, pos, ids[n]), Maxima(q);
    AtHead(q.w, q.lists[ids[n]], pos[ids[n]]);
    if p < f {
      assert ids[n] in Behind(q, pos, f);
      forall i | i in IdSet(ids[..n + 1])
        ensures i in Behind(q, pos, f)
      {
        var a :| 0 <= a < n + 1 && ids[a] == i;
        assert a < n ==> Precedes(q, pos, ids[a], ids[n]);
      }
      MaskedMonotone(maxima, IdSet(ids[..n + 1]), maxima, Behind(q, pos, f));
      assert false;
    }
    forall i: nat | i < |pos| && HeadAt(q, pos, i) < p
      ensures 0 < n && i in IdSet(ids[..n])
    {
    }
    forall i: nat, d: nat | i < |q.lists| && f <= d < p && Holds(q.lists[i], d)
      ensures 0 < n && i in IdSet(ids[..n]) && Contribution(q.w, q.lists[i], d) <= maxima[i]
    {
      assert ValidList(q.lists[i]);
      HeldAhead(q.lists[i], pos[i], f, d);
      ContributionBounded(q.w, q.lists[i], d);
    }
    SpanIsHopeless(q, pos, f, p, pushed, threshold, maxima, if n == 0 then {} else IdSet(ids[..n]));
    MaskedMonotone(maxima, Behind(q, pos, p), maxima, IdSet(ids[..n]));
  }

  /** When even all live cursors together stay below the threshold, or none is left,
      every document is settled. */
  lemma NothingLeft(q: Query, pos: seq<nat>, f: nat, pushed: set<Result>, threshold: Score, ids: seq<nat>)
    requires ValidQuery(q) && Frontier(q, pos, f, pushed, threshold) && AreLive(q, pos, ids)
    requires ids == [] || Masked(Maxima(q), IdSet(ids)) < threshold
    ensures Settled(q, NO_DOCID, pushed, threshold)
  {
    forall i: nat, d: nat | i < |q.lists| && f <= d < NO_DOCID && Holds(q.lists[i], d)
      ensures i in IdSet(ids) && Contribution(q.w, q.lists[i], d) <= Maxima(q)[i]
    {
      assert ValidList(q.lists[i]);
      HeldAhead(q.lists[i], pos[i], f, d);
      ContributionBounded(q.w, q.lists[i], d);
    }
    SpanIsHopeless(q, pos, f, NO_DOCID, pushed, threshold, Maxima(q), IdSet(ids));
  }

  /** Cursors that pass postings before the frontier leave it where it is. */
  lemma FrontierKept(q: Query, pos: seq<nat>, next: seq<nat>, f: nat, pushed: set<Result>, threshold: Score)
    requires ValidQuery(q) && Frontier(q, pos, f, pushed, threshold) && AllPassedBefore(q, next, f)
    requires forall i :: 0 <= i < |pos| ==> pos[i] <= next[i]
    ensures Frontier(q, next, f, pushed, threshold)
  {
    forall i: nat | i < |pos|
      ensures HeadAt(q, pos, i) <= HeadAt(q, next, i)
    {
      HeadsAscend(q.lists[i], pos[i], next[i]);
    }
    MaskedMonotone(Maxima(q), Behind(q, next, f), Maxima(q), Behind(q, pos, f));
  }

  lemma HeadsAscend(t: TermList, n: nat, m: nat)
    requires ValidPostings(t.postings) && n <= m <= |t.postings|
    ensures Head(t, n) <= Head(t, m)
  {
    AscendingOrder(t.postings, |t.postings|);
    assert forall i :: 0 <= i < |t.postings| ==> Fits(t.postings[i]);
  }

  /** The first n of `ids` stand at the pivot, the rest past it, and nothing behind:
      their impacts are all there is to the pivot's score. */
  lemma ScoreIsComplete(q: Query, pos: seq<nat>, p: nat, ids: seq<nat>, n: nat)
    requires ValidQuery(q) && AllPassedBefore(q, pos, p) && AreLive(q, pos, ids) && n <= |ids|
    requires forall a :: n <= a < |ids| ==> p < HeadAt(q, pos, ids[a])
    ensures FullScore(q, p) == Masked(Contributions(q, p), IdSet(ids[..n]))
  {
    forall i: nat | i < |q.lists| && i !in IdSet(ids[..n])
      ensures !Holds(q.lists[i], p)
    {
      assert ValidList(q.lists[i]);
      if Holds(q.lists[i], p) {
        HeldAhead(q.lists[i], pos[i], p, p);
      }
    }
    MaskedTotal(Contributions(q, p), IdSet(ids[..n]), |q.lists|);
  }

  /** All cursors at the pivot have moved one posting on, the pivot has been pushed. */
  lemma PivotSettled(q: Query, pos: seq<nat>, next: seq<nat>, p: nat, pushed: set<Result>,
                     threshold: Score, raised: Score)
    requires ValidQuery(q) && Frontier(q, pos, p, pushed, threshold) && p < NO_DOCID
    requires Matches(q, p) && threshold <= raised
    requires |next| == |pos| && Behind(q, pos, p) == {}
    requires forall i :: 0 <= i < |pos| ==>
      next[i] == if HeadAt(q, pos, i) == p then pos[i] + 1 else pos[i]
    ensures Frontier(q, next, p + 1, pushed + {Result(p, FullScore(q, p))}, raised)
  {
    forall i: nat | i < |pos|
      ensures PassedBefore(q.lists[i], next[i], p + 1) && p < HeadAt(q, next, i)
    {
      assert ValidList(q.lists[i]) && i !in Behind(q, pos, p);
      if HeadAt(q, pos, i) == p {
        AtHead(q.w, q.lists[i], pos[i]);
      }
    }
    assert Behind(q, next, p + 1) == {};
  }

  /** No document from the frontier up to the earliest end of the candidates' blocks,
      or up to the next cursor if that comes first, can reach the threshold when the
      candidates' block maxima together do not. */
  lemma HopelessSpan(q: Query, pos: seq<nat>, f: nat, pushed: set<Result>, threshold: Score,
                     bounds: seq<Score>, candidates: set<nat>, target: nat)
    requires ValidQuery(q) && Frontier(q, pos, f, pushed, threshold)
    requires f <= target <= NO_DOCID && |bounds| == |q.lists|
    requires forall i: nat :: i < |pos| && i !in candidates ==> target <= HeadAt(q, pos, i)
    requires forall i: nat :: i < |pos| && i in candidates ==>
      && pos[i] < |q.lists[i].postings|
      && target <= q.lists[i].blocks[pos[i] / BLOCK_SIZE].maxDocid + 1
      && bounds[i] == q.lists[i].blocks[pos[i] / BLOCK_SIZE].maxImpact
    requires Masked(bounds, candidates) < threshold
    ensures Settled(q, target, pushed, threshold)
  {
    forall i: nat, d: nat | i < |q.lists| && f <= d < target && Holds(q.lists[i], d)
      ensures i in candidates && Contribution(q.w, q.lists[i], d) <= bounds[i]
    {
      assert ValidList(q.lists[i]);
      HeldAhead(q.lists[i], pos[i], f, d);
      ContributionInBlock(q.w, q.lists[i], pos[i], f, d);
    }
    SpanIsHopeless(q, pos, f, target, pushed, threshold, bounds, candidates);
  }

  /** Once every document is settled, the heap holds the answer. */
  lemma SettledIsExact(q: Query, f: nat, top: seq<Result>, pushed: set<Result>, k: nat, threshold: Score)
    requires IsTopK(top, pushed, k) && Genuine(q, f, pushed) && f <= NO_DOCID
    requires Settled(q, NO_DOCID, pushed, threshold)
    requires 0.0 < threshold ==> |top| == k && forall t :: t in top ==> t.score >= threshold
    ensures IsTopK(top, AllResults(q), k)
  {
    PruningIsSafe(top, pushed, AllResults(q), k, threshold);
  }
}
