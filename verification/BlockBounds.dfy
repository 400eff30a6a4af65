/** The candidates of a pivot, their blocks brought over it, and the sum of the blocks'
    bounds. */
module BlockBounds {
  import opened Ranking
  import opened Postings
  import opened PostingCursor
  import opened Sums
  import opened Query
  import opened Pruning
  import opened CursorVector
  import opened LiveCursors

  /** The first n cursors are the ones at or before p. */
  ghost predicate Cut(q: Query, pos: seq<nat>, ids: seq<nat>, p: nat, n: nat)
    requires |pos| == |q.lists| && InRange(ids, |pos|)
  {
    && n <= |ids|
    && (forall a :: 0 <= a < n ==> HeadAt(q, pos, ids[a]) <= p)
    && (forall a :: n <= a < |ids| ==> p < HeadAt(q, pos, ids[a]))
  }

  lemma CutHere(q: Query, cs: seq<Cursor>, pos: seq<nat>, live: seq<Cursor>, p: nat, n: nat)
    requires |pos| == |q.lists| && Ready(q, cs, pos, live) && 0 < n <= |live|
    requires HeadAt(q, pos, Ids(live)[n - 1]) == p
    requires n < |live| ==> HeadAt(q, pos, Ids(live)[n]) != p
    ensures Cut(q, pos, Ids(live), p, n)
  {
    var ids := Ids(live);
    forall a | 0 <= a < |ids|
      ensures a < n ==> HeadAt(q, pos, ids[a]) <= p
      ensures n <= a ==> p < HeadAt(q, pos, ids[a])
    {
      assert a < n - 1 ==> Precedes(q, pos, ids[a], ids[n - 1]);
      assert n <= a ==> Precedes(q, pos, ids[n - 1], ids[n]);
      assert n < a ==> Precedes(q, pos, ids[n], ids[a]);
    }
  }

  /** Every cursor at or before the pivot, not only the prefix whose bounds made it
      the pivot. */
  method CountCandidates(live: seq<Cursor>, pivot: nat, p: nat, ghost q: Query, ghost cs: seq<Cursor>,
                         ghost heap: Owners, ghost pos: seq<nat>)
    returns (n: nat)
    requires Opened(q, cs, heap) && Tracks(q, cs, heap, pos) && |pos| == |q.lists| && Ready(q, cs, pos, live)
    requires pivot < |live| && p == HeadAt(q, pos, Ids(live)[pivot])
    ensures pivot < n <= |live| && Cut(q, pos, Ids(live), p, n)
  {
    hide Tracks, InOrder, Head;
    n := pivot + 1;
    while n < |live| && live[n].docid == p
      invariant pivot < n <= |live| && HeadAt(q, pos, Ids(live)[n - 1]) == p
    {
      ChosenIsMember(q, cs, heap, pos, live, live[n]);
      n := n + 1;
    }
    if n < |live| {
      ChosenIsMember(q, cs, heap, pos, live, live[n]);
    }
    CutHere(q, cs, pos, live, p, n);
  }

  ghost function BlockAt(q: Query, pos: seq<nat>, i: nat): BlockMeta
    requires i < |pos| == |q.lists| && ValidList(q.lists[i]) && pos[i] < |q.lists[i].postings|
  {
    q.lists[i].blocks[pos[i] / BLOCK_SIZE]
  }

  /** The first n cursors' blocks lie over the pivot, everything else is as it was. */
  ghost predicate Positioned(q: Query, pos: seq<nat>, here: seq<nat>, bounds: seq<Score>, ids: seq<nat>, n: nat, p: nat)
    requires ValidQuery(q) && InRange(ids, |pos|) && n <= |ids| && |pos| == |q.lists|
  {
    && |here| == |bounds| == |pos| && AllPassedBefore(q, here, p)
    && (forall i {:trigger here[i]} :: 0 <= i < |pos| ==>
         && pos[i] <= here[i]
         && (i !in ids[..n] || HeadAt(q, pos, i) == p ==> here[i] == pos[i]))
    && (forall i {:trigger bounds[i]} :: 0 <= i < |pos| && i in ids[..n] ==>
         && here[i] < |q.lists[i].postings| && ValidList(q.lists[i])
         && p <= BlockAt(q, here, i).maxDocid && bounds[i] == BlockAt(q, here, i).maxImpact)
  }

  lemma PositionNone(q: Query, pos: seq<nat>, ids: seq<nat>, p: nat)
    requires ValidQuery(q) && InRange(ids, |pos|) && |pos| == |q.lists| && AllPassedBefore(q, pos, p)
    ensures Positioned(q, pos, pos, Maxima(q), ids, 0, p)
    ensures Masked(Maxima(q), IdSet(ids[..0])) == 0.0
  {
    NothingSummed(Maxima(q), ids);
  }

  lemma PositionNext(q: Query, pos: seq<nat>, here: seq<nat>, next: seq<nat>, bounds: seq<Score>,
                     ids: seq<nat>, n: nat, p: nat, bound: Score)
    requires ValidQuery(q) && InRange(ids, |pos|) && n < |ids| && |pos| == |q.lists|
    requires forall a :: 0 <= a < n ==> ids[a] != ids[n]
    requires Positioned(q, pos, here, bounds, ids, n, p) && Moved(q, here, next, ids[n], p)
    requires p <= HeadAt(q, here, ids[n]) ==> next == here
    requires ValidList(q.lists[ids[n]]) && next[ids[n]] < |q.lists[ids[n]].postings|
    requires p <= BlockAt(q, next, ids[n]).maxDocid && bound == BlockAt(q, next, ids[n]).maxImpact
    ensures Positioned(q, pos, next, bounds[ids[n] := bound], ids, n + 1, p)
    ensures Masked(bounds[ids[n] := bound], IdSet(ids[..n + 1])) == Masked(bounds, IdSet(ids[..n])) + bound
  {
    var more := bounds[ids[n] := bound];
    assert ids[..n + 1] == ids[..n] + [ids[n]];
    assert here[ids[n]] == pos[ids[n]];
    assert forall i :: i in ids[..n + 1] <==> i == ids[n] || i in ids[..n];
    forall i: nat | i < |pos| && i in ids[..n + 1]
      ensures next[i] < |q.lists[i].postings| && ValidList(q.lists[i])
      ensures p <= BlockAt(q, next, i).maxDocid && more[i] == BlockAt(q, next, i).maxImpact
    {
      if i != ids[n] {
        assert more[i] == bounds[i] && next[i] == here[i];
      }
    }
    IdSetPush(ids, n);
    MaskedMonotone(bounds, IdSet(ids[..n]), more, IdSet(ids[..n]));
    MaskedMonotone(more, IdSet(ids[..n]), bounds, IdSet(ids[..n]));
    MaskedAdd(more, IdSet(ids[..n]), ids[n]);
  }

  lemma CursorBlock(q: Query, cs: seq<Cursor>, heap: Owners, pos: seq<nat>, c: Cursor)
    requires ValidQuery(q) && Opened(q, cs, heap) && Tracks(q, cs, heap, pos) && IsMember(cs, c)
    ensures |pos| == |q.lists| && c.Valid() && ValidList(q.lists[c.id])
    ensures c.exhausted <==> pos[c.id] == |q.lists[c.id].postings|
    ensures !c.exhausted ==> pos[c.id] < |q.lists[c.id].postings| && c.blockIndex < |c.blocks|
    ensures !c.exhausted ==> BlockAt(q, pos, c.id) == c.blocks[c.blockIndex]
  {
    TrackedHead(q, cs, heap, pos, c.id);
    assert cs[c.id].Valid();
  }

  lemma Exhausted(q: Query, pos: seq<nat>, here: seq<nat>, next: seq<nat>, bounds: seq<Score>,
                  ids: seq<nat>, n: nat, p: nat)
    requires ValidQuery(q) && |pos| == |q.lists| && AreLive(q, pos, ids) && n < |ids|
    requires forall a :: 0 <= a < n ==> ids[a] != ids[n]
    requires Positioned(q, pos, here, bounds, ids, n, p) && Moved(q, here, next, ids[n], p)
    requires next[ids[n]] == |q.lists[ids[n]].postings|
    ensures forall i :: 0 <= i < |pos| ==> pos[i] <= next[i]
    ensures AllPassedBefore(q, next, p) && Count(pos) < Count(next)
  {
    assert ids[n] in ids && ids[n] !in ids[..n];
    assert pos[ids[n]] < next[ids[n]];
    CountMonotone(pos, next);
  }

  lemma PositionedFacts(q: Query, pos: seq<nat>, here: seq<nat>, bounds: seq<Score>, ids: seq<nat>, n: nat, p: nat)
    requires ValidQuery(q) && InRange(ids, |pos|) && n <= |ids| && |pos| == |q.lists|
    requires Positioned(q, pos, here, bounds, ids, n, p)
    ensures |here| == |bounds| == |pos| && AllPassedBefore(q, here, p)
    ensures forall i :: 0 <= i < |pos| ==> pos[i] <= here[i]
  {
  }

  lemma ReadyIds(q: Query, cs: seq<Cursor>, pos: seq<nat>, live: seq<Cursor>)
    requires |pos| == |q.lists| && Ready(q, cs, pos, live)
    ensures InRange(Ids(live), |pos|)
    ensures forall a :: 0 <= a < |live| ==> IsMember(cs, live[a])
    ensures forall a, b :: 0 <= a < b < |live| ==> Ids(live)[a] != Ids(live)[b]
  {
  }

  /** Brings the block of every candidate over the pivot and sums the blocks' bounds;
      negative if a candidate runs out. */
  method PositionBlocks(live: seq<Cursor>, n: nat, p: nat, ghost q: Query, ghost cs: seq<Cursor>,
                        ghost heap: Owners, ghost pos: seq<nat>)
    returns (blockBound: real, ghost next: seq<nat>, ghost bounds: seq<Score>)
    requires ValidQuery(q) && Opened(q, cs, heap) && Tracks(q, cs, heap, pos) && |pos| == |q.lists|
    requires Ready(q, cs, pos, live) && n <= |live| && AllPassedBefore(q, pos, p) && p < NO_DOCID
    modifies heap.Keys
    ensures Tracks(q, cs, heap, next) && |next| == |pos| && AllPassedBefore(q, next, p)
    ensures forall i :: 0 <= i < |pos| ==> pos[i] <= next[i]
    ensures blockBound < 0.0 ==> Count(pos) < Count(next)
    ensures 0.0 <= blockBound ==>
      Positioned(q, pos, next, bounds, Ids(live), n, p) && blockBound == Masked(bounds, IdSet(Ids(live)[..n]))
  {
    hide Tracks, ValidQuery, AllPassedBefore, Ready, Masked, IdSet, Count, AreLive, InOrder, Positioned, Moved;
    ghost var ids := Ids(live);
    ReadyFacts(q, cs, pos, live);
    ReadyIds(q, cs, pos, live);
    PositionNone(q, pos, ids, p);
    blockBound, next, bounds := 0.0, pos, Maxima(q);
    for j := 0 to n
      invariant Tracks(q, cs, heap, next) && |next| == |bounds| == |pos|
      invariant Positioned(q, pos, next, bounds, ids, j, p)
      invariant blockBound == Masked(bounds, IdSet(ids[..j]))
    {
      ghost var here := next;
      var c := live[j];
      CursorBlock(q, cs, heap, here, c);
      next := MoveToBlock(q, cs, heap, here, c, p);
      CursorBlock(q, cs, heap, next, c);
      if c.exhausted {
        Exhausted(q, pos, here, next, bounds, ids, j, p);
        blockBound := -1.0;
        return;
      }
      PositionNext(q, pos, here, next, bounds, ids, j, p, c.BlockMaxImpact());
      blockBound := blockBound + c.BlockMaxImpact();
      bounds := bounds[ids[j] := c.BlockMaxImpact()];
    }
    PositionedFacts(q, pos, next, bounds, ids, n, p);
  }
}
