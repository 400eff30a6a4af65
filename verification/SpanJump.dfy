/** Jumping a span of documents that the blocks' bounds rule out. */
module SpanJump {
  import opened Ranking
  import opened Postings
  import opened PostingCursor
  import opened Sums
  import opened Query
  import opened Pruning
  import opened CursorVector
  import opened LiveCursors
  import opened BlockBounds

  /** The block under cursor i does not end before `end`. */
  ghost predicate LastsTo(q: Query, pos: seq<nat>, i: nat, end: nat)
    requires |pos| == |q.lists|
  {
    && i < |pos| && pos[i] < |q.lists[i].postings| && ValidList(q.lists[i])
    && end <= BlockAt(q, pos, i).maxDocid
  }

  lemma CandidateBlock(q: Query, cs: seq<Cursor>, heap: Owners, pos: seq<nat>, here: seq<nat>, bounds: seq<Score>,
                       live: seq<Cursor>, n: nat, p: nat, j: nat)
    requires ValidQuery(q) && Opened(q, cs, heap) && Tracks(q, cs, heap, here) && |pos| == |here| == |q.lists|
    requires Ready(q, cs, pos, live) && j < n <= |live| && Positioned(q, pos, here, bounds, Ids(live), n, p)
    ensures live[j].Valid() && !live[j].exhausted
    ensures p <= live[j].BlockMaxDocid() < NO_DOCID
    ensures forall end: nat :: LastsTo(q, here, Ids(live)[j], end) <==> end <= live[j].BlockMaxDocid()
  {
    hide Tracks, ValidQuery, AreLive, InOrder, Opened;
    ghost var ids := Ids(live);
    ReadyIds(q, cs, pos, live);
    CursorBlock(q, cs, heap, here, live[j]);
    assert ids[..n][j] == ids[j] && bounds[ids[j]] >= 0.0;
    BlockEndFits(q.lists[ids[j]], here[ids[j]] / BLOCK_SIZE);
  }

  lemma LastsLess(q: Query, pos: seq<nat>, i: nat, end: nat, less: nat)
    requires |pos| == |q.lists| && LastsTo(q, pos, i, end) && less <= end
    ensures LastsTo(q, pos, i, less)
  {
  }

  /** The earliest end of a candidate's block: every candidate's block lasts to it, and
      one of them ends there. */
  method EarliestBlockEnd(live: seq<Cursor>, n: nat, p: nat, ghost q: Query, ghost cs: seq<Cursor>,
                          ghost heap: Owners, ghost pos: seq<nat>, ghost here: seq<nat>, ghost bounds: seq<Score>)
    returns (end: nat)
    requires ValidQuery(q) && Opened(q, cs, heap) && Tracks(q, cs, heap, here) && |pos| == |here| == |q.lists|
    requires Ready(q, cs, pos, live) && 0 < n <= |live| && Positioned(q, pos, here, bounds, Ids(live), n, p)
    requires p < NO_DOCID
    ensures p <= end < NO_DOCID
    ensures forall a :: 0 <= a < n ==> LastsTo(q, here, Ids(live)[a], end)
    ensures exists a :: 0 <= a < n && !LastsTo(q, here, Ids(live)[a], end + 1)
  {
    hide Tracks, ValidQuery, AreLive, InOrder, Opened, Positioned, Ready, LastsTo;
    ghost var ids, at := Ids(live), 0;
    end := NO_DOCID;
    for j := 0 to n
      invariant p <= end <= NO_DOCID && at < n
      invariant j == 0 ==> end == NO_DOCID
      invariant 0 < j ==> end < NO_DOCID && !LastsTo(q, here, ids[at], end + 1)
      invariant forall a :: 0 <= a < j ==> LastsTo(q, here, ids[a], end)
    {
      CandidateBlock(q, cs, heap, pos, here, bounds, live, n, p, j);
      if live[j].BlockMaxDocid() < end {
        forall a | 0 <= a < j
          ensures LastsTo(q, here, ids[a], live[j].BlockMaxDocid())
        {
          LastsLess(q, here, ids[a], end, live[j].BlockMaxDocid());
        }
        end, at := live[j].BlockMaxDocid(), j;
      }
    }
  }

  lemma BlockEndFits(t: TermList, b: nat)
    requires ValidList(t) && b < |t.blocks|
    ensures t.blocks[b].maxDocid < NO_DOCID
  {
    BlockFacts(t, b);
    AscendingOrder(t.postings, |t.postings|);
    assert Fits(t.postings[BLOCK_SIZE * b + t.blocks[b].count - 1]);
  }

  /** A cursor outside the candidates stands at the next one outside or later. */
  lemma OutsidePast(q: Query, cs: seq<Cursor>, pos: seq<nat>, here: seq<nat>, bounds: seq<Score>,
                    live: seq<Cursor>, n: nat, p: nat, target: nat)
    requires ValidQuery(q) && |pos| == |here| == |q.lists|
    requires Ready(q, cs, pos, live) && 0 < n <= |live| && Positioned(q, pos, here, bounds, Ids(live), n, p)
    requires target <= NO_DOCID && (n < |live| ==> target <= HeadAt(q, pos, Ids(live)[n]))
    ensures forall i: nat :: i < |pos| && i !in Ids(live)[..n] ==> target <= HeadAt(q, here, i)
  {
    hide ValidQuery;
    var ids := Ids(live);
    forall i: nat | i < |pos| && i !in ids[..n]
      ensures target <= HeadAt(q, here, i)
    {
      assert here[i] == pos[i];
      if pos[i] < |q.lists[i].postings| {
        var a :| 0 <= a < |ids| && ids[a] == i;
        assert n < a ==> Precedes(q, pos, ids[n], ids[a]);
      }
    }
  }

  lemma SpanSettled(q: Query, cs: seq<Cursor>, pos: seq<nat>, here: seq<nat>, bounds: seq<Score>,
                    live: seq<Cursor>, n: nat, p: nat, target: nat, pushed: set<Result>, threshold: Score)
    requires ValidQuery(q) && |pos| == |here| == |q.lists|
    requires Ready(q, cs, pos, live) && 0 < n <= |live| && Positioned(q, pos, here, bounds, Ids(live), n, p)
    requires Frontier(q, here, p, pushed, threshold) && p < target <= NO_DOCID
    requires Masked(bounds, IdSet(Ids(live)[..n])) < threshold
    requires forall a :: 0 <= a < n ==> LastsTo(q, here, Ids(live)[a], target - 1)
    requires n < |live| ==> target <= HeadAt(q, pos, Ids(live)[n])
    ensures Settled(q, target, pushed, threshold)
    ensures forall i: nat :: i < |pos| && i !in Ids(live)[..n] ==> target <= HeadAt(q, here, i)
  {
    hide ValidList, Masked, Frontier, Settled, Head;
    var ids := Ids(live);
    OutsidePast(q, cs, pos, here, bounds, live, n, p, target);
    forall i: nat | i in ids[..n]
      ensures LastsTo(q, here, i, target - 1)
    {
      var a :| 0 <= a < n && ids[..n][a] == i;
      assert ids[a] == i;
    }
    HopelessSpan(q, here, p, pushed, threshold, bounds, IdSet(ids[..n]), target);
  }

  /** The first n cursors are at or past the target, the others where they were. */
  ghost predicate Jumped(q: Query, here: seq<nat>, next: seq<nat>, ids: seq<nat>, n: nat, target: nat)
    requires |here| == |q.lists| && InRange(ids, |here|) && n <= |ids|
  {
    && |next| == |here| && AllPassedBefore(q, next, target)
    && (forall i {:trigger next[i]} :: 0 <= i < |here| ==>
         && here[i] <= next[i]
         && (i in ids[..n] ==> target <= HeadAt(q, next, i))
         && (i !in ids[..n] ==> next[i] == here[i]))
  }

  lemma JumpNone(q: Query, here: seq<nat>, ids: seq<nat>, p: nat, target: nat)
    requires |here| == |q.lists| && InRange(ids, |here|) && AllPassedBefore(q, here, p) && p <= target
    ensures Jumped(q, here, here, ids, 0, target)
  {
    forall i: nat | i < |here|
      ensures PassedBefore(q.lists[i], here[i], target)
    {
      assert PassedBefore(q.lists[i], here[i], p);
    }
  }

  lemma JumpOne(q: Query, here: seq<nat>, mid: seq<nat>, next: seq<nat>, ids: seq<nat>, n: nat, target: nat)
    requires |here| == |q.lists| && InRange(ids, |here|) && n < |ids|
    requires Jumped(q, here, mid, ids, n, target)
    requires Moved(q, mid, next, ids[n], target) && target <= HeadAt(q, next, ids[n])
    ensures Jumped(q, here, next, ids, n + 1, target)
  {
    assert ids[..n + 1] == ids[..n] + [ids[n]];
    assert forall i :: i in ids[..n + 1] <==> i == ids[n] || i in ids[..n];
  }

  lemma JumpDone(q: Query, here: seq<nat>, next: seq<nat>, ids: seq<nat>, n: nat, pivot: nat, target: nat,
                 p: nat, pushed: set<Result>, threshold: Score)
    requires ValidQuery(q) && |here| == |q.lists| && InRange(ids, |here|) && pivot < n <= |ids|
    requires Jumped(q, here, next, ids, n, target) && p < target <= NO_DOCID
    requires Frontier(q, here, p, pushed, threshold) && Settled(q, target, pushed, threshold)
    requires forall i: nat :: i < |here| && i !in ids[..n] ==> target <= HeadAt(q, here, i)
    requires HeadAt(q, here, ids[pivot]) == p
    ensures Frontier(q, next, target, pushed, threshold)
    ensures Behind(q, next, target) == {} && forall i :: 0 <= i < |here| ==> here[i] <= next[i]
    ensures Count(here) < Count(next) <= PostingCount(q)
  {
    assert Behind(q, next, target) == {};
    assert ids[..n][pivot] == ids[pivot];
    assert here[ids[pivot]] < next[ids[pivot]];
    CountMonotone(here, next);
    PassedAtMost(q, next);
  }

  /** Moves every candidate that is short of the target up to it. */
  method JumpSpan(live: seq<Cursor>, n: nat, target: nat, ghost q: Query, ghost cs: seq<Cursor>,
                  ghost heap: Owners, ghost pos: seq<nat>, ghost here: seq<nat>, ghost p: nat)
    returns (ghost next: seq<nat>)
    requires Opened(q, cs, heap) && Tracks(q, cs, heap, here) && |pos| == |here| == |q.lists|
    requires Ready(q, cs, pos, live) && n <= |live|
    requires AllPassedBefore(q, here, p) && p <= target <= NO_DOCID
    modifies heap.Keys
    ensures Tracks(q, cs, heap, next) && Jumped(q, here, next, Ids(live), n, target)
  {
    hide Tracks, AllPassedBefore, AreLive, InOrder, Jumped, Moved, Ready;
    ghost var ids := Ids(live);
    ReadyIds(q, cs, pos, live);
    JumpNone(q, here, ids, p, target);
    next := here;
    for j := 0 to n
      invariant Tracks(q, cs, heap, next) && Jumped(q, here, next, ids, j, target)
    {
      ghost var mid := next;
      TracksAll(q, cs, heap, mid);
      TrackedHead(q, cs, heap, mid, live[j].id);
      if live[j].docid < target {
        next := MoveGeq(q, cs, heap, mid, live[j], target);
      }
      JumpOne(q, here, mid, next, ids, j, target);
    }
  }

  /** The whole span up to the earliest block end, or up to the next cursor outside
      the candidates, is passed over. */
  method SkipSpan(live: seq<Cursor>, n: nat, ghost pivot: nat, p: nat, ghost q: Query, ghost cs: seq<Cursor>,
                  ghost heap: Owners, ghost pos: seq<nat>, ghost here: seq<nat>, ghost bounds: seq<Score>,
                  ghost pushed: set<Result>, ghost threshold: Score)
    returns (ghost target: nat, ghost next: seq<nat>)
    requires ValidQuery(q) && Opened(q, cs, heap) && Tracks(q, cs, heap, here) && |pos| == |here| == |q.lists|
    requires Ready(q, cs, pos, live) && pivot < n <= |live| && Positioned(q, pos, here, bounds, Ids(live), n, p)
    requires Cut(q, pos, Ids(live), p, n) && HeadAt(q, pos, Ids(live)[pivot]) == p < NO_DOCID
    requires Frontier(q, here, p, pushed, threshold) && AllPassedBefore(q, here, p)
    requires Masked(bounds, IdSet(Ids(live)[..n])) < threshold
    modifies heap.Keys
    ensures Tracks(q, cs, heap, next) && |next| == |pos|
    ensures p < target && Frontier(q, next, target, pushed, threshold)
    ensures Behind(q, next, target) == {} && forall i :: 0 <= i < |here| ==> here[i] <= next[i]
    ensures Count(here) < Count(next) <= PostingCount(q)
    ensures CoversLive(q, cs, next, live)
  {
    hide Tracks, ValidQuery, AllPassedBefore, AreLive, InOrder, Opened, Frontier, Positioned, Masked, Count;
    hide PostingCount, CoversLive, Jumped, Settled, Behind;
    ghost var ids := Ids(live);
    ReadyIds(q, cs, pos, live);
    var end := EarliestBlockEnd(live, n, p, q, cs, heap, pos, here, bounds);
    if end == NO_DOCID {
      assert false;
    }
    var stop := end + 1;
    if n < |live| {
      NextOutside(q, cs, heap, pos, here, bounds, live, n, p);
      if live[n].docid < stop {
        stop := live[n].docid;
      }
    }
    target := stop;
    forall a | 0 <= a < n
      ensures LastsTo(q, here, ids[a], stop - 1)
    {
      LastsLess(q, here, ids[a], end, stop - 1);
    }
    SpanSettled(q, cs, pos, here, bounds, live, n, p, stop, pushed, threshold);
    next := JumpSpan(live, n, stop, q, cs, heap, pos, here, p);
    PivotUnmoved(q, pos, here, bounds, ids, n, p, ids[pivot]);
    JumpDone(q, here, next, ids, n, pivot, stop, p, pushed, threshold);
    CoversJumped(q, cs, pos, here, next, bounds, live, n, p, stop);
  }

  lemma NextOutside(q: Query, cs: seq<Cursor>, heap: Owners, pos: seq<nat>, here: seq<nat>, bounds: seq<Score>,
                    live: seq<Cursor>, n: nat, p: nat)
    requires ValidQuery(q) && Opened(q, cs, heap) && Tracks(q, cs, heap, here) && |pos| == |here| == |q.lists|
    requires Ready(q, cs, pos, live) && n < |live| && Positioned(q, pos, here, bounds, Ids(live), n, p)
    requires Cut(q, pos, Ids(live), p, n)
    ensures p < live[n].docid == HeadAt(q, pos, Ids(live)[n])
  {
    var i := Ids(live)[n];
    assert i !in Ids(live)[..n];
    assert here[i] == pos[i] && IsMember(cs, live[n]);
    TrackedHead(q, cs, heap, here, i);
  }

  lemma PivotUnmoved(q: Query, pos: seq<nat>, here: seq<nat>, bounds: seq<Score>, ids: seq<nat>, n: nat, p: nat, i: nat)
    requires ValidQuery(q) && InRange(ids, |pos|) && n <= |ids| && |pos| == |q.lists|
    requires Positioned(q, pos, here, bounds, ids, n, p) && i < |pos| && HeadAt(q, pos, i) == p
    ensures |here| == |pos| && HeadAt(q, here, i) == p
  {
    assert here[i] == pos[i];
  }

  lemma CoversJumped(q: Query, cs: seq<Cursor>, pos: seq<nat>, here: seq<nat>, next: seq<nat>, bounds: seq<Score>,
                     live: seq<Cursor>, n: nat, p: nat, target: nat)
    requires ValidQuery(q) && |pos| == |here| == |q.lists| && Ready(q, cs, pos, live) && n <= |live|
    requires Positioned(q, pos, here, bounds, Ids(live), n, p) && Jumped(q, here, next, Ids(live), n, target)
    ensures |next| == |pos| && CoversLive(q, cs, next, live)
  {
    CoversKept(q, cs, pos, here, live);
    CoversKept(q, cs, here, next, live);
  }
}
