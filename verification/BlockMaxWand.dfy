/** BlockMax-WAND: a pivot found on term-wide bounds is tested again on the bounds of
    the blocks under the cursors, and a span that fails is jumped. */
module BlockMaxWand {
  import opened Ranking
  import opened Postings
  import opened PostingCursor
  import opened Sums
  import opened Query
  import opened Pruning
  import opened CursorVector
  import opened LiveCursors
  import opened SearchRuns
  import opened SearchRounds
  import opened BlockBounds
  import opened SpanJump

  /** The candidates moved but none ran out, so sorting again is enough. */
  lemma SortedAgain(q: Query, cs: seq<Cursor>, heap: Owners, pos: seq<nat>, next: seq<nat>, bounds: seq<Score>,
                    live: seq<Cursor>, n: nat, p: nat, sorted: seq<Cursor>)
    requires ValidQuery(q) && Opened(q, cs, heap) && Tracks(q, cs, heap, next) && |pos| == |next| == |q.lists|
    requires Ready(q, cs, pos, live) && n <= |live| && Positioned(q, pos, next, bounds, Ids(live), n, p)
    requires Sorted(sorted) && forall c :: c in sorted <==> c in live
    ensures Ready(q, cs, next, sorted)
  {
    var ids := Ids(live);
    CoversKept(q, cs, pos, next, live);
    forall c | c in live
      ensures !c.exhausted
    {
      TrackedHead(q, cs, heap, next, c.id);
      var a :| 0 <= a < |live| && live[a] == c;
      assert ids[a] in ids;
      assert next[ids[a]] < |q.lists[ids[a]].postings| by {
        if ids[a] in ids[..n] {
          assert bounds[ids[a]] >= 0.0;
        } else {
          assert next[ids[a]] == pos[ids[a]];
        }
      }
    }
    SortedIsReady(q, cs, heap, next, live, sorted);
  }

  method SortAgain(live: seq<Cursor>, ghost n: nat, ghost p: nat, ghost q: Query, ghost cs: seq<Cursor>,
                   ghost heap: Owners, ghost pos: seq<nat>, ghost next: seq<nat>, ghost bounds: seq<Score>)
    returns (sorted: seq<Cursor>)
    requires ValidQuery(q) && Opened(q, cs, heap) && Tracks(q, cs, heap, next) && |pos| == |next| == |q.lists|
    requires Ready(q, cs, pos, live) && n <= |live| && Positioned(q, pos, next, bounds, Ids(live), n, p)
    ensures Ready(q, cs, next, sorted) && |sorted| == |live|
  {
    hide Tracks, ValidQuery, Positioned, AreLive, InOrder, Opened;
    sorted := SortByDocid(live);
    SortedAgain(q, cs, heap, pos, next, bounds, live, n, p, sorted);
  }

  /** The pivot's own cursor has not moved: it still stands at the pivot. */
  lemma PivotStands(q: Query, cs: seq<Cursor>, heap: Owners, pos: seq<nat>, next: seq<nat>, bounds: seq<Score>,
                    live: seq<Cursor>, n: nat, p: nat, pivot: nat, sorted: seq<Cursor>)
    requires ValidQuery(q) && Opened(q, cs, heap) && Tracks(q, cs, heap, next) && |pos| == |next| == |q.lists|
    requires Ready(q, cs, pos, live) && pivot < n <= |live| && Positioned(q, pos, next, bounds, Ids(live), n, p)
    requires HeadAt(q, pos, Ids(live)[pivot]) == p < NO_DOCID && Ready(q, cs, next, sorted)
    ensures sorted != [] && IsMember(cs, sorted[0]) && sorted[0].docid == HeadAt(q, next, Ids(sorted)[0]) <= p
    ensures sorted[0].docid == p ==> Behind(q, next, p) == {}
  {
    var i := Ids(live)[pivot];
    assert next[i] == pos[i];
    AtHeadLive(q, next, i);
    assert i in Ids(sorted);
    var a :| 0 <= a < |sorted| && Ids(sorted)[a] == i;
    assert 0 < a ==> Precedes(q, next, Ids(sorted)[0], Ids(sorted)[a]);
    assert IsMember(cs, sorted[0]);
    TrackedHead(q, cs, heap, next, Ids(sorted)[0]);
    if sorted[0].docid == p {
      NothingBehind(q, cs, next, sorted, p);
    }
  }

  lemma AtHeadLive(q: Query, pos: seq<nat>, i: nat)
    requires i < |pos| == |q.lists| && HeadAt(q, pos, i) < NO_DOCID
    ensures pos[i] < |q.lists[i].postings|
  {
  }

  /** In the sorted list everything behind the pivot comes first. */
  method ChooseBehind(live: seq<Cursor>, p: nat) returns (chosen: Cursor)
    requires Sorted(live) && live != [] && live[0].docid < p
    ensures chosen in live && chosen.docid < p
    ensures forall c :: c in live && c.docid < p ==> c.maxImpact <= chosen.maxImpact
  {
    var best: Cursor? := null;
    var i := 0;
    while i < |live| && live[i].docid < p
      invariant i <= |live|
      invariant best == null ==> i == 0
      invariant best != null ==> best in live && best.docid < p
      invariant best != null ==> forall a :: 0 <= a < i ==> live[a].maxImpact <= best.maxImpact
    {
      if best == null || live[i].maxImpact > best.maxImpact {
        best := live[i];
      }
      i := i + 1;
    }
    chosen := best;
  }

  lemma SortedNow(q: Query, cs: seq<Cursor>, heap: Owners, pos: seq<nat>, live: seq<Cursor>)
    requires Opened(q, cs, heap) && Tracks(q, cs, heap, pos) && |pos| == |q.lists| && Ready(q, cs, pos, live)
    ensures Sorted(live)
  {
    forall a | 0 <= a < |live|
      ensures live[a].docid == HeadAt(q, pos, Ids(live)[a])
    {
      TrackedHead(q, cs, heap, pos, Ids(live)[a]);
      assert IsMember(cs, live[a]);
    }
    forall a, b | 0 <= a < b < |live|
      ensures Before(live[a], live[b])
    {
      assert Precedes(q, pos, Ids(live)[a], Ids(live)[b]);
    }
  }

  method DragBehind(p: nat, live: seq<Cursor>, ghost q: Query, ghost cs: seq<Cursor>,
                    ghost heap: Owners, ghost pos: seq<nat>, ghost pushed: set<Result>, ghost threshold: Score)
    returns (ghost next: seq<nat>)
    requires ValidQuery(q) && Opened(q, cs, heap) && Tracks(q, cs, heap, pos) && |pos| == |q.lists|
    requires Frontier(q, pos, p, pushed, threshold) && p < NO_DOCID
    requires Ready(q, cs, pos, live) && live != [] && live[0].docid < p
    modifies heap.Keys
    ensures Tracks(q, cs, heap, next) && |next| == |pos|
    ensures Frontier(q, next, p, pushed, threshold)
    ensures Count(pos) < Count(next) <= PostingCount(q)
    ensures CoversLive(q, cs, next, live) && forall i :: 0 <= i < |pos| ==> pos[i] <= next[i]
  {
    hide Opened, Tracks, ValidQuery, Frontier, PostingCount, Count, CoversLive, Ready, Sorted;
    ReadyFacts(q, cs, pos, live);
    SortedNow(q, cs, heap, pos, live);
    var chosen := ChooseBehind(live, p);
    next := DragLaggard(chosen, p, live, q, cs, heap, pos, pushed, threshold);
  }

  // ---- the evaluation ----

  lemma BlocksPositioned(q: Query, cs: seq<Cursor>, pos: seq<nat>, next: seq<nat>, live: seq<Cursor>,
                         p: nat, pushed: set<Result>, threshold: Score)
    requires ValidQuery(q) && |pos| == |next| == |q.lists| && Ready(q, cs, pos, live)
    requires Frontier(q, pos, p, pushed, threshold) && AllPassedBefore(q, next, p)
    requires forall i :: 0 <= i < |pos| ==> pos[i] <= next[i]
    ensures Frontier(q, next, p, pushed, threshold)
    ensures Count(pos) <= Count(next) <= PostingCount(q)
    ensures CoversLive(q, cs, next, live)
  {
    FrontierKept(q, pos, next, p, pushed, threshold);
    CountMonotone(pos, next);
    PassedAtMost(q, next);
    CoversKept(q, cs, pos, next, live);
  }

  /** The blocks do not rule the pivot out. The candidates having moved, it is scored if
      a cursor can be at it with none behind, and approached if not. */
  method TestPivot(w: Weigh, live: seq<Cursor>, n: nat, ghost pivot: nat, p: nat, top: TopK, ghost q: Query,
                   ghost k: nat, ghost cs: seq<Cursor>, ghost heap: Owners, ghost log: Log, ghost here: seq<nat>,
                   ghost bounds: seq<Score>)
    returns (again: seq<Cursor>, scored: bool, m: nat, ghost more: Log)
    requires q.w == w && ValidQuery(q) && Opened(q, cs, heap) && IsRun(q, k, log) && 1 <= k
    requires Tracks(q, cs, heap, here) && |log.pos| == |here| == |q.lists|
    requires top.Valid() && top.k == k && top !in heap && top.pushed == log.pushed
    requires Ready(q, cs, log.pos, live) && pivot < n <= |live|
    requires Positioned(q, log.pos, here, bounds, Ids(live), n, p)
    requires forall o :: Chooses(q, k, RoundOf(log, live, pivot, o)) && PivotOf(q, k, RoundOf(log, live, pivot, o)) == p
    requires HeadAt(q, log.pos, Ids(live)[pivot]) == p < NO_DOCID && Matches(q, p) && Genuine(q, p, log.pushed)
    requires Frontier(q, here, p, log.pushed, top.Threshold()) && AllPassedBefore(q, here, p)
    requires Count(log.pos) <= Count(here) && forall i :: 0 <= i < |here| ==> log.pos[i] <= here[i]
    modifies heap.Keys, top
    ensures Stands(q, k, cs, heap, top, more) && CoversLive(q, cs, more.pos, again)
    ensures |more.rounds| == |log.rounds| + 1 && |more.pushed| == |log.pushed| + if scored then 1 else 0
    ensures Count(log.pos) < Count(more.pos) <= PostingCount(q) && Count(log.pos) + m <= Count(more.pos)
  {
    hide Opened, Tracks, ValidQuery, Frontier, AllPassedBefore, Genuine, Settled, Behind, Positioned, IsRun, Chooses;
    hide IsTopK, AllResults, PostingCount, Count, FullScore, Ready, CoversLive, Masked, Matches, Sorted, IsMember;
    again := SortAgain(live, n, p, q, cs, heap, log.pos, here, bounds);
    PivotStands(q, cs, heap, log.pos, here, bounds, live, n, p, pivot, again);
    ghost var next;
    if again[0].docid == p {
      NotYetPushed(q, here, p, top.pushed, top.Threshold());
      m, next := SettlePivot(w, again, p, top, q, cs, heap, here);
      ghost var r := RoundOf(log, live, pivot, Scored);
      PivotScored(q, k, log, r, next, top.Threshold());
      more, scored := Longer(log, r, next, top.pushed), true;
    } else {
      next := DragBehind(p, again, q, cs, heap, here, top.pushed, top.Threshold());
      ghost var r := RoundOf(log, live, pivot, Approached);
      PivotApproached(q, k, log, r, next, top.Threshold());
      more, scored, m := Longer(log, r, next, top.pushed), false, 0;
    }
  }

  /** The blocks rule the pivot out, and the span behind it with it. */
  method JumpPivot(live: seq<Cursor>, n: nat, ghost pivot: nat, p: nat, ghost top: TopK, ghost q: Query,
                   ghost k: nat, ghost cs: seq<Cursor>, ghost heap: Owners, ghost log: Log, ghost here: seq<nat>,
                   ghost bounds: seq<Score>)
    returns (ghost more: Log)
    requires ValidQuery(q) && Opened(q, cs, heap) && IsRun(q, k, log) && 1 <= k
    requires Tracks(q, cs, heap, here) && |log.pos| == |here| == |q.lists|
    requires top.Valid() && top.k == k && top !in heap && top.pushed == log.pushed
    requires Ready(q, cs, log.pos, live) && pivot < n <= |live|
    requires Positioned(q, log.pos, here, bounds, Ids(live), n, p) && Cut(q, log.pos, Ids(live), p, n)
    requires forall o :: Chooses(q, k, RoundOf(log, live, pivot, o)) && PivotOf(q, k, RoundOf(log, live, pivot, o)) == p
    requires HeadAt(q, log.pos, Ids(live)[pivot]) == p < NO_DOCID && Genuine(q, p, log.pushed)
    requires Frontier(q, here, p, log.pushed, top.Threshold()) && AllPassedBefore(q, here, p)
    requires Count(log.pos) <= Count(here) && forall i :: 0 <= i < |here| ==> log.pos[i] <= here[i]
    requires Masked(bounds, IdSet(Ids(live)[..n])) < top.Threshold()
    modifies heap.Keys
    ensures Stands(q, k, cs, heap, top, more) && CoversLive(q, cs, more.pos, live)
    ensures |more.rounds| == |log.rounds| + 1 && more.pushed == log.pushed
    ensures Count(log.pos) < Count(more.pos) <= PostingCount(q)
  {
    hide Opened, Tracks, ValidQuery, Frontier, AllPassedBefore, Genuine, Settled, Behind, Positioned, IsRun, Chooses;
    hide IsTopK, AllResults, PostingCount, Count, FullScore, Ready, CoversLive, Masked, Matches, Sorted, IsMember, Cut;
    ghost var target, next;
    target, next := SkipSpan(live, n, pivot, p, q, cs, heap, log.pos, here, bounds, top.pushed, top.Threshold());
    ghost var r := RoundOf(log, live, pivot, Jumped(target));
    PivotJumped(q, k, log, r, next);
    more := Longer(log, r, next, top.pushed);
  }

  /** A round once the pivot is found on the lists' bounds: approached if a candidate runs
      out, tested if the blocks' bounds reach the threshold, jumped if they do not. */
  method PivotRound(w: Weigh, live: seq<Cursor>, pivot: nat, top: TopK, ghost q: Query, ghost k: nat,
                    ghost cs: seq<Cursor>, ghost heap: Owners, ghost log: Log)
    returns (again: seq<Cursor>, scored: bool, m: nat, ghost more: Log)
    requires q.w == w && ValidQuery(q) && Opened(q, cs, heap) && 1 <= k
    requires Stands(q, k, cs, heap, top, log) && Ready(q, cs, log.pos, live)
    requires IsPivot(q, Ids(live), pivot, top.Threshold())
    modifies heap.Keys, top
    ensures Stands(q, k, cs, heap, top, more) && CoversLive(q, cs, more.pos, again)
    ensures |more.rounds| == |log.rounds| + 1 && |more.pushed| == |log.pushed| + if scored then 1 else 0
    ensures Count(log.pos) < Count(more.pos) <= PostingCount(q) && Count(log.pos) + m <= Count(more.pos)
  {
    hide Opened, Tracks, ValidQuery, Frontier, AllPassedBefore, Genuine, Settled, Behind, Positioned, Cut, IsRun;
    hide IsTopK, PostingCount, Count, FullScore, Ready, CoversLive, Masked, Chooses, Matches;
    hide InOrder, AreLive, Sorted, IsMember;
    var p, threshold := live[pivot].docid, top.Threshold();
    PivotFound(q, k, cs, heap, top, log, live, pivot);
    var n := CountCandidates(live, pivot, p, q, cs, heap, log.pos);
    var blockBound;
    ghost var here, bounds;
    blockBound, here, bounds := PositionBlocks(live, n, p, q, cs, heap, log.pos);
    BlocksPositioned(q, cs, log.pos, here, live, p, top.pushed, threshold);
    if blockBound < 0.0 {
      ghost var r := RoundOf(log, live, pivot, Approached);
      PivotApproached(q, k, log, r, here, threshold);
      again, scored, m, more := live, false, 0, Longer(log, r, here, top.pushed);
    } else if blockBound >= threshold {
      again, scored, m, more := TestPivot(w, live, n, pivot, p, top, q, k, cs, heap, log, here, bounds);
    } else {
      again, scored, m := live, false, 0;
      more := JumpPivot(live, n, pivot, p, top, q, k, cs, heap, log, here, bounds);
    }
  }

  /** BlockMax-WAND: the same results as the exhaustive evaluation, from no more
      postings. */
  method BlockMaxWand(w: Weigh, cs: seq<Cursor>, k: nat, ghost q: Query, ghost heap: Owners)
    returns (out: seq<Result>, stats: SearchStats, ghost log: Log)
    requires 1 <= k && q.w == w && ValidQuery(q)
    requires Opened(q, cs, heap) && Tracks(q, cs, heap, AtStart(q))
    modifies heap.Keys
    ensures IsTopK(out, AllResults(q), k)
    ensures IsRun(q, k, log) && Ended(q, k, log) && Tracks(q, cs, heap, log.pos) && IsTopK(out, log.pushed, k)
    ensures stats.candidatesSeen == |log.rounds| && stats.fullEvaluations == |log.pushed|
    ensures stats.postingsScored <= PostingCount(q) && stats.fullEvaluations <= |AllResults(q)|
    ensures forall i :: 0 <= i < |cs| ==> cs[i].blocksDecoded <= |cs[i].blocks|
  {
    hide Opened, Tracks, ValidQuery, Frontier, AllPassedBefore, Genuine, Settled, Behind, Positioned, Cut, IsRun;
    hide IsTopK, AllResults, PostingCount, Count, FullScore, Ready, CoversLive, IsPivot, Masked, Chooses, Matches;
    hide InOrder, AreLive, Sorted, IsMember, Ended;
    var top := new TopK(k);
    var live := cs;
    var postingsScored: nat, candidates: nat, evaluations: nat := 0, 0, 0;
    log := Log([], AtStart(q), {});
    StandsAtStart(q, k, cs, heap, top);
    while true
      invariant Stands(q, k, cs, heap, top, log) && CoversLive(q, cs, log.pos, live)
      invariant candidates == |log.rounds| && evaluations == |log.pushed|
      invariant postingsScored <= Count(log.pos) <= PostingCount(q)
      decreases PostingCount(q) - Count(log.pos)
    {
      live := Refresh(live, q, cs, heap, log.pos);
      if |live| == 0 {
        NoPivot(q, k, cs, heap, top, log, live);
        break;
      }
      var pivot := FindPivot(live, top.Threshold(), q, cs, heap, log.pos);
      if pivot == |live| {
        NoPivot(q, k, cs, heap, top, log, live);
        break;
      }
      candidates := candidates + 1;
      var scored, m;
      live, scored, m, log := PivotRound(w, live, pivot, top, q, k, cs, heap, log);
      postingsScored, evaluations := postingsScored + m, evaluations + if scored then 1 else 0;
    }
    DecodedOnce(q, cs, heap, log.pos);
    out := top.Drain();
    stats := SearchStats(postingsScored, evaluations, candidates);
  }
}
