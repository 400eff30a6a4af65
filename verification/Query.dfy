/** What a disjunctive query asks for, and why postings may be passed unread. */
module Query {
  import opened Ranking
  import opened Postings
  import opened Sums

  /** The lists of the query's terms and the function that weighs a posting. */
  datatype Query = Query(w: Weigh, lists: seq<TermList>)

  ghost predicate ValidQuery(q: Query)
  {
    forall i :: 0 <= i < |q.lists| ==> ValidList(q.lists[i]) && Bounded(q.w, q.lists[i])
  }

  ghost predicate Holds(t: TermList, d: nat)
  {
    exists p :: 0 <= p < |t.postings| && t.postings[p].docid == d
  }

  ghost function Contribution(w: Weigh, t: TermList, d: nat): Score
  {
    if Holds(t, d) then
      var p :| 0 <= p < |t.postings| && t.postings[p].docid == d;
      Impact(w, t, p)
    else 0.0
  }

  ghost function Contributions(q: Query, d: nat): (v: seq<Score>)
    ensures |v| == |q.lists|
    ensures forall i :: 0 <= i < |v| ==> v[i] == Contribution(q.w, q.lists[i], d)
  {
    seq(|q.lists|, i requires 0 <= i < |q.lists| => Contribution(q.w, q.lists[i], d))
  }

  /** A document's complete score. */
  ghost function FullScore(q: Query, d: nat): Score
  {
    Total(Contributions(q, d), |q.lists|)
  }

  ghost predicate Matches(q: Query, d: nat)
  {
    exists i :: 0 <= i < |q.lists| && Holds(q.lists[i], d)
  }

  /** Every document with any of the terms, with its complete score. */
  ghost function AllResults(q: Query): set<Result>
  {
    set d | 0 <= d < NO_DOCID && Matches(q, d) :: Result(d, FullScore(q, d))
  }

  lemma ContributionAt(w: Weigh, t: TermList, p: nat)
    requires ValidPostings(t.postings) && p < |t.postings|
    ensures Contribution(w, t, t.postings[p].docid) == Impact(w, t, p)
  {
    AscendingOrder(t.postings, |t.postings|);
    var d := t.postings[p].docid;
    assert Holds(t, d);
    var r :| 0 <= r < |t.postings| && t.postings[r].docid == d && Contribution(w, t, d) == Impact(w, t, r);
    assert r == p;
  }

  lemma ContributionBounded(w: Weigh, t: TermList, d: nat)
    requires ValidList(t) && Bounded(w, t)
    ensures Contribution(w, t, d) <= t.maxImpact
  {
    if Holds(t, d) {
      var p :| 0 <= p < |t.postings| && t.postings[p].docid == d && Contribution(w, t, d) == Impact(w, t, p);
    }
  }

  /** Where a cursor that has passed n postings stands. */
  function Head(t: TermList, n: nat): nat
  {
    if n < |t.postings| then t.postings[n].docid else NO_DOCID
  }

  /** Everything passed is before f. */
  ghost predicate PassedBefore(t: TermList, n: nat, f: nat)
  {
    n <= |t.postings| && (0 < n ==> t.postings[n - 1].docid < f)
  }

  /** A document at or after f is still ahead of a cursor that has passed only
      postings before f: at its head, or later in its list. */
  lemma HeldAhead(t: TermList, n: nat, f: nat, d: nat)
    requires ValidPostings(t.postings) && PassedBefore(t, n, f) && f <= d && Holds(t, d)
    ensures n < |t.postings| && Head(t, n) <= d < NO_DOCID
  {
    AscendingOrder(t.postings, |t.postings|);
    var p :| 0 <= p < |t.postings| && t.postings[p].docid == d;
    assert Fits(t.postings[p]);
  }

  lemma AtHead(w: Weigh, t: TermList, n: nat)
    requires ValidPostings(t.postings) && n < |t.postings|
    ensures Holds(t, Head(t, n)) && Contribution(w, t, Head(t, n)) == Impact(w, t, n)
    ensures Head(t, n) < NO_DOCID && Head(t, n) < Head(t, n + 1)
  {
    AscendingOrder(t.postings, |t.postings|);
    ContributionAt(w, t, n);
    assert Fits(t.postings[n]);
  }

  /** Within the block under the cursor its maximum bounds what is still to come. */
  lemma ContributionInBlock(w: Weigh, t: TermList, n: nat, f: nat, d: nat)
    requires ValidList(t) && Bounded(w, t) && PassedBefore(t, n, f) && n < |t.postings|
    requires f <= d <= t.blocks[n / BLOCK_SIZE].maxDocid
    ensures Contribution(w, t, d) <= t.blocks[n / BLOCK_SIZE].maxImpact
  {
    if Holds(t, d) {
      var p :| 0 <= p < |t.postings| && t.postings[p].docid == d && Contribution(w, t, d) == Impact(w, t, p);
      PastBlock(t, n / BLOCK_SIZE, p);
      assert n <= p by { AscendingOrder(t.postings, |t.postings|); }
    }
  }

  ghost predicate Positions(q: Query, pos: seq<nat>)
  {
    |pos| == |q.lists| && forall i :: 0 <= i < |pos| ==> pos[i] <= |q.lists[i].postings|
  }

  ghost function Maxima(q: Query): (v: seq<Score>)
    ensures |v| == |q.lists|
    ensures forall i :: 0 <= i < |v| ==> v[i] == q.lists[i].maxImpact
  {
    seq(|q.lists|, i requires 0 <= i < |q.lists| => q.lists[i].maxImpact)
  }

  ghost function HeadAt(q: Query, pos: seq<nat>, i: nat): nat
    requires i < |pos| == |q.lists|
  {
    Head(q.lists[i], pos[i])
  }

  /** The cursors that stand before f. */
  ghost function Behind(q: Query, pos: seq<nat>, f: nat): set<nat>
    requires |pos| == |q.lists|
  {
    set i: nat | i < |pos| && HeadAt(q, pos, i) < f
  }

  ghost predicate AllPassedBefore(q: Query, pos: seq<nat>, f: nat)
  {
    Positions(q, pos) && forall i :: 0 <= i < |pos| ==> PassedBefore(q.lists[i], pos[i], f)
  }

  /** No document before f can be missing from the best results: it was pushed with
      its complete score, or that score is below the threshold. */
  ghost predicate Settled(q: Query, f: nat, pushed: set<Result>, threshold: Score)
  {
    forall d: nat :: d < f && Matches(q, d) ==>
      FullScore(q, d) < threshold || Result(d, FullScore(q, d)) in pushed
  }

  ghost predicate Genuine(q: Query, f: nat, pushed: set<Result>)
  {
    forall r :: r in pushed ==> r.docid < f && Matches(q, r.docid) && r.score == FullScore(q, r.docid)
  }

  /** The state of an evaluation whose frontier has reached f. */
  ghost predicate Frontier(q: Query, pos: seq<nat>, f: nat, pushed: set<Result>, threshold: Score)
  {
    && f <= NO_DOCID
    && AllPassedBefore(q, pos, f)
    && Settled(q, f, pushed, threshold)
    && Genuine(q, f, pushed)
    && (Behind(q, pos, f) == {} || Masked(Maxima(q), Behind(q, pos, f)) < threshold)
  }

  /** A span of documents that only some cursors can still hold, and that those
      cannot lift to the threshold. */
  lemma SpanIsHopeless(q: Query, pos: seq<nat>, f: nat, g: nat, pushed: set<Result>, threshold: Score,
                       bounds: seq<Score>, s: set<nat>)
    requires f <= g && Settled(q, f, pushed, threshold)
    requires |bounds| == |q.lists|
    requires forall i: nat, d: nat :: i < |q.lists| && f <= d < g && Holds(q.lists[i], d) ==>
      i in s && Contribution(q.w, q.lists[i], d) <= bounds[i]
    requires s == {} || Masked(bounds, s) < threshold
    ensures Settled(q, g, pushed, threshold)
  {
    forall d: nat | f <= d < g && Matches(q, d)
      ensures FullScore(q, d) < threshold
    {
      var v := Contributions(q, d);
      var holders := set i: nat | i < |v| && Holds(q.lists[i], d);
      MaskedTotal(v, holders, |v|);
      MaskedMonotone(v, holders, bounds, s);
    }
  }
}
