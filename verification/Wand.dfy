/** WAND (Broder et al. 2003). */
module Wand {
  import opened Ranking
  import opened Postings
  import opened PostingCursor
  import opened Sums
  import opened Query
  import opened Pruning
  import opened CursorVector
  import opened LiveCursors
  import opened SearchRuns
  import opened SearchRounds

  /** The laggard WAND drags: of the cursors before the pivot in the list and behind
      it in their postings, the first with the largest bound. */
  method ChooseLaggard(live: seq<Cursor>, pivot: nat, p: nat) returns (chosen: Cursor)
    requires pivot <= |live|
    requires exists a :: 0 <= a < pivot && live[a].docid < p
    ensures chosen in live[..pivot] && chosen.docid < p
    ensures forall a :: 0 <= a < pivot && live[a].docid < p ==> live[a].maxImpact <= chosen.maxImpact
  {
    var best: Cursor? := null;
    for i := 0 to pivot
      invariant best == null ==> forall a :: 0 <= a < i ==> live[a].docid >= p
      invariant best != null ==> best in live[..pivot] && best.docid < p
      invariant best != null ==> forall a :: 0 <= a < i && live[a].docid < p ==> live[a].maxImpact <= best.maxImpact
    {
      if live[i].docid >= p {
        continue;
      }
      if best == null || live[i].maxImpact > best.maxImpact {
        best := live[i];
        assert live[..pivot][i] == best;
      }
    }
    chosen := best;
  }

  /** A round once the pivot is found: scored if the first cursor is at it, so that
      none is behind, and approached if not. */
  method SettleOrApproach(w: Weigh, live: seq<Cursor>, pivot: nat, top: TopK, ghost q: Query, ghost k: nat,
                          ghost cs: seq<Cursor>, ghost heap: Owners, ghost log: Log)
    returns (scored: bool, n: nat, ghost more: Log)
    requires q.w == w && ValidQuery(q) && Opened(q, cs, heap) && 1 <= k
    requires Stands(q, k, cs, heap, top, log) && Ready(q, cs, log.pos, live)
    requires IsPivot(q, Ids(live), pivot, top.Threshold())
    modifies heap.Keys, top
    ensures Stands(q, k, cs, heap, top, more) && CoversLive(q, cs, more.pos, live)
    ensures |more.rounds| == |log.rounds| + 1 && |more.pushed| == |log.pushed| + if scored then 1 else 0
    ensures Count(log.pos) < Count(more.pos) <= PostingCount(q) && Count(log.pos) + n <= Count(more.pos)
  {
    hide Opened, Tracks, ValidQuery, Frontier, AllPassedBefore, Genuine, Settled, Behind, IsRun, Chooses;
    hide IsTopK, PostingCount, Count, FullScore, Ready, CoversLive, Masked, Matches, InOrder, AreLive;
    var p := live[pivot].docid;
    PivotFound(q, k, cs, heap, top, log, live, pivot);
    ghost var next;
    if live[0].docid == p {
      NotYetPushed(q, log.pos, p, top.pushed, top.Threshold());
      n, next := SettlePivot(w, live, p, top, q, cs, heap, log.pos);
      ghost var r := RoundOf(log, live, pivot, Scored);
      PivotScored(q, k, log, r, next, top.Threshold());
      scored, more := true, Longer(log, r, next, top.pushed);
    } else {
      var chosen := ChooseLaggard(live, pivot, p);
      ReadyFacts(q, cs, log.pos, live);
      next := DragLaggard(chosen, p, live, q, cs, heap, log.pos, top.pushed, top.Threshold());
      ghost var r := RoundOf(log, live, pivot, Approached);
      PivotApproached(q, k, log, r, next, top.Threshold());
      scored, n, more := false, 0, Longer(log, r, next, top.pushed);
    }
  }

  /** WAND: the same results as the exhaustive evaluation, from no more postings. */
  method Wand(w: Weigh, cs: seq<Cursor>, k: nat, ghost q: Query, ghost heap: Owners)
    returns (out: seq<Result>, stats: SearchStats, ghost log: Log)
    requires 1 <= k && q.w == w && ValidQuery(q)
    requires Opened(q, cs, heap) && Tracks(q, cs, heap, AtStart(q))
    modifies heap.Keys
    ensures IsTopK(out, AllResults(q), k)
    ensures IsRun(q, k, log) && Ended(q, k, log) && Tracks(q, cs, heap, log.pos) && IsTopK(out, log.pushed, k)
    ensures stats.candidatesSeen == |log.rounds| && stats.fullEvaluations == |log.pushed|
    ensures stats.postingsScored <= PostingCount(q) && stats.fullEvaluations <= |AllResults(q)|
    ensures forall i :: 0 <= i < |cs| ==> cs[i].blocksDecoded <= |cs[i].blocks|
  {
    hide Opened, Tracks, ValidQuery, Frontier, AllPassedBefore, Genuine, Settled, Behind, IsRun, Chooses, Ended;
    hide IsTopK, AllResults, PostingCount, Count, FullScore, Ready, CoversLive, IsPivot, Masked, Matches;
    hide InOrder, AreLive;
    var top := new TopK(k);
    var live := cs;
    var postingsScored: nat, candidates: nat, evaluations: nat := 0, 0, 0;
    log := Log([], AtStart(q), {});
    StandsAtStart(q, k, cs, heap, top);
    while true
      invariant Stands(q, k, cs, heap, top, log) && CoversLive(q, cs, log.pos, live)
      invariant candidates == |log.rounds| && evaluations == |log.pushed|
      invariant postingsScored <= Count(log.pos) <= PostingCount(q)
      decreases PostingCount(q) - Count(log.pos)
    {
      live := Refresh(live, q, cs, heap, log.pos);
      if |live| == 0 {
        NoPivot(q, k, cs, heap, top, log, live);
        break;
      }
      var pivot := FindPivot(live, top.Threshold(), q, cs, heap, log.pos);
      if pivot == |live| {
        NoPivot(q, k, cs, heap, top, log, live);
        break;
      }
      candidates := candidates + 1;
      var scored, n;
      scored, n, log := SettleOrApproach(w, live, pivot, top, q, k, cs, heap, log);
      postingsScored, evaluations := postingsScored + n, evaluations + if scored then 1 else 0;
    }
    DecodedOnce(q, cs, heap, log.pos);
    out := top.Drain();
    stats := SearchStats(postingsScored, evaluations, candidates);
  }
}
