/** The list of cursors with postings left, kept in docid order, and what a round over
    it does: finding a pivot, settling it, dragging a laggard. */
module LiveCursors {
  import opened Ranking
  import opened Postings
  import opened PostingCursor
  import opened Sums
  import opened Query
  import opened Pruning
  import opened CursorVector

  predicate Before(a: Cursor, b: Cursor)
    reads a, b
  {
    a.docid < b.docid || (a.docid == b.docid && a.id < b.id)
  }

  ghost predicate Sorted(s: seq<Cursor>)
    reads s
  {
    forall a, b :: 0 <= a < b < |s| ==> Before(s[a], s[b])
  }

  method InsertByDocid(s: seq<Cursor>, c: Cursor) returns (out: seq<Cursor>)
    requires Sorted(s) && forall a :: 0 <= a < |s| ==> s[a].id != c.id
    ensures Sorted(out)
    ensures exists at :: 0 <= at <= |s| && out == s[..at] + [c] + s[at..]
  {
    var at := 0;
    while at < |s| && Before(s[at], c)
      invariant at <= |s| && forall a :: 0 <= a < at ==> Before(s[a], c)
    {
      at := at + 1;
    }
    out := s[..at] + [c] + s[at..];
  }

  method SortByDocid(live: seq<Cursor>) returns (sorted: seq<Cursor>)
    requires forall a, b :: 0 <= a < b < |live| ==> live[a].id != live[b].id
    ensures Sorted(sorted) && |sorted| == |live|
    ensures forall c :: c in sorted <==> c in live
  {
    sorted := [];
    for n := 0 to |live|
      invariant Sorted(sorted) && |sorted| == n
      invariant forall c :: c in sorted <==> c in live[..n]
    {
      assert live[..n + 1] == live[..n] + [live[n]];
      assert forall a :: 0 <= a < |sorted| ==> sorted[a] in live[..n];
      ghost var was := sorted;
      sorted := InsertByDocid(sorted, live[n]);
      ghost var at :| 0 <= at <= |was| && sorted == was[..at] + [live[n]] + was[at..];
      assert was == was[..at] + was[at..];
    }
    assert live[..|live|] == live;
  }

  ghost function Ids(live: seq<Cursor>): (ids: seq<nat>)
    ensures |ids| == |live| && forall a :: 0 <= a < |ids| ==> ids[a] == live[a].id
  {
    seq(|live|, a requires 0 <= a < |live| => live[a].id)
  }

  /** Different members of the vector, all those with postings left among them. */
  ghost predicate CoversLive(q: Query, cs: seq<Cursor>, pos: seq<nat>, live: seq<Cursor>)
    requires |pos| == |q.lists|
  {
    && (forall a :: 0 <= a < |live| ==> IsMember(cs, live[a]))
    && (forall a, b :: 0 <= a < b < |live| ==> live[a].id != live[b].id)
    && (forall i: nat :: i < |pos| && i < |cs| && pos[i] < |q.lists[i].postings| ==> cs[i] in live)
  }

  /** In docid order, those with postings left and no others. */
  ghost predicate Ready(q: Query, cs: seq<Cursor>, pos: seq<nat>, live: seq<Cursor>)
    requires |pos| == |q.lists|
  {
    && CoversLive(q, cs, pos, live)
    && AreLive(q, pos, Ids(live))
    && InOrder(q, pos, Ids(live))
  }

  /** `live.erase(remove_if(exhausted))` */
  method RemoveExhausted(live: seq<Cursor>) returns (kept: seq<Cursor>)
    requires forall a, b :: 0 <= a < b < |live| ==> live[a].id != live[b].id
    ensures forall c :: c in kept <==> c in live && !c.exhausted
    ensures forall a, b :: 0 <= a < b < |kept| ==> kept[a].id != kept[b].id
  {
    kept := [];
    for n := 0 to |live|
      invariant forall c :: c in kept <==> c in live[..n] && !c.exhausted
      invariant forall a, b :: 0 <= a < b < |kept| ==> kept[a].id != kept[b].id
    {
      assert live[..n + 1] == live[..n] + [live[n]];
      if !live[n].exhausted {
        assert forall a :: 0 <= a < |kept| ==> kept[a] in live[..n];
        kept := kept + [live[n]];
      }
    }
    assert live[..|live|] == live;
  }

  lemma SortedIsReady(q: Query, cs: seq<Cursor>, heap: Owners, pos: seq<nat>, live: seq<Cursor>, sorted: seq<Cursor>)
    requires Opened(q, cs, heap) && Tracks(q, cs, heap, pos) && |pos| == |q.lists|
    requires CoversLive(q, cs, pos, live)
    requires Sorted(sorted) && forall c :: c in sorted <==> c in live && !c.exhausted
    ensures Ready(q, cs, pos, sorted)
  {
    var ids := Ids(sorted);
    forall a | 0 <= a < |sorted|
      ensures IsMember(cs, sorted[a]) && ids[a] < |pos| && pos[ids[a]] < |q.lists[ids[a]].postings|
      ensures sorted[a].docid == HeadAt(q, pos, ids[a])
    {
      assert sorted[a] in sorted;
      TrackedHead(q, cs, heap, pos, ids[a]);
    }
    forall i: nat | i < |pos| && pos[i] < |q.lists[i].postings|
      ensures cs[i] in sorted && i in ids
    {
      TrackedHead(q, cs, heap, pos, i);
      assert cs[i] in live;
      var a :| 0 <= a < |sorted| && sorted[a] == cs[i];
      assert ids[a] == i;
    }
    forall a, b | 0 <= a < b < |sorted|
      ensures Precedes(q, pos, ids[a], ids[b])
    {
      assert Before(sorted[a], sorted[b]);
    }
  }

  /** What each round starts with: drop the exhausted, sort the rest. */
  method Refresh(live: seq<Cursor>, ghost q: Query, ghost cs: seq<Cursor>, ghost heap: Owners, ghost pos: seq<nat>)
    returns (ready: seq<Cursor>)
    requires Opened(q, cs, heap) && Tracks(q, cs, heap, pos) && |pos| == |q.lists|
    requires CoversLive(q, cs, pos, live)
    ensures Ready(q, cs, pos, ready)
  {
    hide Tracks, Opened;
    var kept := RemoveExhausted(live);
    ready := SortByDocid(kept);
    SortedIsReady(q, cs, heap, pos, live, ready);
  }

  /** The first cursor at which the bounds of the lists so far reach the threshold,
      or the number of cursors if they never do. */
  method FindPivot(live: seq<Cursor>, threshold: Score, ghost q: Query, ghost cs: seq<Cursor>,
                   ghost heap: Owners, ghost pos: seq<nat>)
    returns (pivot: nat)
    requires Opened(q, cs, heap) && Tracks(q, cs, heap, pos) && |pos| == |q.lists| && Ready(q, cs, pos, live)
    ensures pivot <= |live|
    ensures pivot < |live| ==> IsPivot(q, Ids(live), pivot, threshold)
    ensures pivot == |live| ==> live == [] || Masked(Maxima(q), IdSet(Ids(live))) < threshold
  {
    var bound := 0.0;
    ghost var ids := Ids(live);
    assert IdSet(ids[..0]) == {};
    MaskedNone(Maxima(q));
    for i := 0 to |live|
      invariant bound == Masked(Maxima(q), IdSet(ids[..i]))
      invariant 0 < i ==> bound < threshold
    {
      BoundPush(Maxima(q), ids, i);
      bound := bound + live[i].maxImpact;
      if bound >= threshold {
        return i;
      }
    }
    assert ids[..|live|] == ids;
    return |live|;
  }

  /** The first cursor standing at p, none stands before it. */
  lemma NothingBehind(q: Query, cs: seq<Cursor>, pos: seq<nat>, live: seq<Cursor>, p: nat)
    requires |pos| == |q.lists| && Ready(q, cs, pos, live) && p <= NO_DOCID
    requires live != [] && HeadAt(q, pos, Ids(live)[0]) == p
    ensures Behind(q, pos, p) == {}
  {
    forall i: nat | i < |pos| && pos[i] < |q.lists[i].postings|
      ensures p <= HeadAt(q, pos, i)
    {
      var a :| 0 <= a < |live| && Ids(live)[a] == i;
      assert 0 < a ==> Precedes(q, pos, Ids(live)[0], Ids(live)[a]);
    }
  }

  /** The first n cursors stand at p and the others past it. */
  ghost predicate SplitAt(q: Query, pos: seq<nat>, ids: seq<nat>, p: nat, n: nat)
    requires |pos| == |q.lists| && InRange(ids, |pos|)
  {
    && n <= |ids|
    && (forall a :: 0 <= a < n ==> HeadAt(q, pos, ids[a]) == p)
    && (forall a :: n <= a < |ids| ==> p < HeadAt(q, pos, ids[a]))
  }

  lemma ScorePush(q: Query, cs: seq<Cursor>, heap: Owners, pos: seq<nat>, live: seq<Cursor>, p: nat, n: nat)
    requires ValidQuery(q) && Opened(q, cs, heap) && Tracks(q, cs, heap, pos)
    requires AllPassedBefore(q, pos, p) && Behind(q, pos, p) == {} && p < NO_DOCID
    requires |pos| == |q.lists| && Ready(q, cs, pos, live) && n < |live|
    ensures live[n].docid == HeadAt(q, pos, Ids(live)[n])
    ensures live[n].docid == p ==>
      Masked(Contributions(q, p), IdSet(Ids(live)[..n + 1])) ==
      Masked(Contributions(q, p), IdSet(Ids(live)[..n])) + q.w(live[n].idf, live[n].freq, p)
  {
    var ids := Ids(live);
    TrackedHead(q, cs, heap, pos, ids[n]);
    assert IsMember(cs, live[n]) && cs[ids[n]].Valid();
    ContributionAtHead(q, pos, p, ids[n]);
    BoundPush(Contributions(q, p), ids, n);
  }

  lemma SplitHere(q: Query, cs: seq<Cursor>, pos: seq<nat>, live: seq<Cursor>, p: nat, n: nat)
    requires |pos| == |q.lists| && Ready(q, cs, pos, live) && n <= |live| && Behind(q, pos, p) == {}
    requires forall a :: 0 <= a < n ==> HeadAt(q, pos, Ids(live)[a]) == p
    requires n < |live| ==> HeadAt(q, pos, Ids(live)[n]) != p
    ensures SplitAt(q, pos, Ids(live), p, n)
  {
    var ids := Ids(live);
    forall a | n <= a < |ids|
      ensures p < HeadAt(q, pos, ids[a])
    {
      assert ids[n] !in Behind(q, pos, p);
      assert n < a ==> Precedes(q, pos, ids[n], ids[a]);
    }
  }

  /** Sums the impacts of the cursors at the pivot, in the order they stand. */
  method ScorePivot(w: Weigh, live: seq<Cursor>, p: nat, ghost q: Query, ghost cs: seq<Cursor>,
                    ghost heap: Owners, ghost pos: seq<nat>)
    returns (score: Score, n: nat)
    requires q.w == w && ValidQuery(q) && Opened(q, cs, heap) && Tracks(q, cs, heap, pos)
    requires AllPassedBefore(q, pos, p) && Behind(q, pos, p) == {} && p < NO_DOCID
    requires |pos| == |q.lists| && Ready(q, cs, pos, live)
    ensures score == FullScore(q, p) && SplitAt(q, pos, Ids(live), p, n)
  {
    hide Tracks, Opened, ValidQuery, AllPassedBefore, Behind, Contribution, Masked, IdSet, FullScore, InOrder;
    ghost var ids, v := Ids(live), Contributions(q, p);
    NothingSummed(v, ids);
    score, n := 0.0, 0;
    while n < |live| && live[n].docid == p
      invariant n <= |live| && score == Masked(v, IdSet(ids[..n]))
      invariant forall a :: 0 <= a < n ==> HeadAt(q, pos, ids[a]) == p
    {
      ScorePush(q, cs, heap, pos, live, p, n);
      score := score + w(live[n].idf, live[n].freq, p);
      n := n + 1;
    }
    if n < |live| {
      ScorePush(q, cs, heap, pos, live, p, n);
    }
    SplitHere(q, cs, pos, live, p, n);
    ScoreIsComplete(q, pos, p, ids, n);
  }

  lemma NothingSummed(v: seq<Score>, ids: seq<nat>)
    ensures Masked(v, IdSet(ids[..0])) == 0.0
  {
    assert IdSet(ids[..0]) == {};
    MaskedNone(v);
  }

  /** The first n of `ids` have moved one posting on. */
  ghost predicate PassedFirst(pos: seq<nat>, here: seq<nat>, ids: seq<nat>, n: nat)
    requires InRange(ids, |pos|) && n <= |ids|
  {
    && |here| == |pos| && Count(here) == Count(pos) + n
    && forall i {:trigger here[i]} :: 0 <= i < |pos| ==>
         here[i] == if i in ids[..n] then pos[i] + 1 else pos[i]
  }

  lemma PassFirst(q: Query, cs: seq<Cursor>, pos: seq<nat>, here: seq<nat>, next: seq<nat>, live: seq<Cursor>, n: nat)
    requires |pos| == |q.lists| && Ready(q, cs, pos, live) && n < |live|
    requires PassedFirst(pos, here, Ids(live), n) && OneMoved(here, next, Ids(live)[n], 1)
    ensures PassedFirst(pos, next, Ids(live), n + 1)
  {
    var ids := Ids(live);
    CountMoved(here, next, ids[n], 1);
    assert ids[..n + 1] == ids[..n] + [ids[n]];
    assert ids[n] !in ids[..n];
  }

  lemma NotYetFirst(q: Query, cs: seq<Cursor>, pos: seq<nat>, here: seq<nat>, live: seq<Cursor>, n: nat)
    requires |pos| == |q.lists| && Ready(q, cs, pos, live) && n < |live| && PassedFirst(pos, here, Ids(live), n)
    ensures |here| == |pos| && here[Ids(live)[n]] == pos[Ids(live)[n]]
  {
    assert Ids(live)[n] !in Ids(live)[..n];
  }

  lemma PassedAllAt(q: Query, cs: seq<Cursor>, pos: seq<nat>, here: seq<nat>, live: seq<Cursor>, p: nat, n: nat)
    requires |pos| == |q.lists| && Ready(q, cs, pos, live) && p < NO_DOCID
    requires SplitAt(q, pos, Ids(live), p, n) && PassedFirst(pos, here, Ids(live), n)
    ensures PassedOver(q, pos, here, p, |pos|)
  {
    var ids := Ids(live);
    forall i: nat | i < |pos|
      ensures i in ids[..n] <==> HeadAt(q, pos, i) == p
    {
      if HeadAt(q, pos, i) == p {
        var a :| 0 <= a < |ids| && ids[a] == i;
        assert a < n;
        assert ids[..n][a] == i;
      }
    }
  }

  /** Moves every cursor that stands at the pivot one posting on. */
  method PassPivot(live: seq<Cursor>, p: nat, ghost n: nat, ghost q: Query, ghost cs: seq<Cursor>,
                   ghost heap: Owners, ghost pos: seq<nat>)
    returns (ghost next: seq<nat>)
    requires Opened(q, cs, heap) && Tracks(q, cs, heap, pos) && p < NO_DOCID
    requires |pos| == |q.lists| && Ready(q, cs, pos, live) && SplitAt(q, pos, Ids(live), p, n)
    modifies heap.Keys
    ensures Tracks(q, cs, heap, next) && PassedOver(q, pos, next, p, |pos|)
    ensures Count(next) == Count(pos) + n
  {
    hide Tracks, Head, Count;
    var j := 0;
    next := pos;
    if 0 < |live| {
      TrackedHead(q, cs, heap, pos, live[0].id);
    }
    while j < |live| && live[j].docid == p
      invariant j <= n && Tracks(q, cs, heap, next) && PassedFirst(pos, next, Ids(live), j)
      invariant j < |live| ==> live[j].docid == HeadAt(q, pos, Ids(live)[j])
      decreases |live| - j
    {
      ghost var here := next;
      NotYetFirst(q, cs, pos, here, live, j);
      TrackedHead(q, cs, heap, here, live[j].id);
      next := MoveNext(q, cs, heap, here, live[j]);
      PassFirst(q, cs, pos, here, next, live, j);
      j := j + 1;
      if j < |live| {
        NotYetFirst(q, cs, pos, next, live, j);
        TrackedHead(q, cs, heap, next, live[j].id);
      }
    }
    PassedAllAt(q, cs, pos, next, live, p, n);
  }

  /** What a round has done to the frontier, in numbers a loop can count on. */
  lemma LaggardDragged(q: Query, pos: seq<nat>, next: seq<nat>, i: nat, p: nat, pushed: set<Result>, threshold: Score)
    requires ValidQuery(q) && Frontier(q, pos, p, pushed, threshold)
    requires i < |pos| && Moved(q, pos, next, i, p)
    ensures Frontier(q, next, p, pushed, threshold)
    ensures Count(pos) <= Count(next) <= PostingCount(q)
    ensures HeadAt(q, pos, i) < p <= HeadAt(q, next, i) ==> Count(pos) < Count(next)
  {
    forall j: nat | j < |pos|
      ensures pos[j] <= next[j] && PassedBefore(q.lists[j], next[j], p)
    {
      assert PassedBefore(q.lists[j], pos[j], p);
    }
    FrontierKept(q, pos, next, p, pushed, threshold);
    CountMonotone(pos, next);
    PassedAtMost(q, next);
  }

  lemma CoversAll(q: Query, cs: seq<Cursor>, heap: Owners)
    requires Opened(q, cs, heap)
    ensures CoversLive(q, cs, AtStart(q), cs)
  {
  }

  lemma CoversKept(q: Query, cs: seq<Cursor>, pos: seq<nat>, next: seq<nat>, live: seq<Cursor>)
    requires |pos| == |next| == |q.lists| && CoversLive(q, cs, pos, live)
    requires forall i :: 0 <= i < |pos| ==> pos[i] <= next[i]
    ensures CoversLive(q, cs, next, live)
  {
  }

  /** Scores the pivot, pushes it, and moves everything that stands at it. */
  method SettlePivot(w: Weigh, live: seq<Cursor>, p: nat, top: TopK, ghost q: Query, ghost cs: seq<Cursor>,
                     ghost heap: Owners, ghost pos: seq<nat>)
    returns (n: nat, ghost next: seq<nat>)
    requires q.w == w && ValidQuery(q) && Opened(q, cs, heap) && Tracks(q, cs, heap, pos)
    requires top.Valid() && top !in heap
    requires |pos| == |q.lists| && Frontier(q, pos, p, top.pushed, top.Threshold()) && AllPassedBefore(q, pos, p)
    requires Genuine(q, p, top.pushed) && Behind(q, pos, p) == {} && Matches(q, p) && p < NO_DOCID
    requires Ready(q, cs, pos, live)
    modifies heap.Keys, top
    ensures Tracks(q, cs, heap, next) && |next| == |pos|
    ensures top.Valid() && top.pushed == old(top.pushed) + {Result(p, FullScore(q, p))}
    ensures Frontier(q, next, p + 1, top.pushed, top.Threshold())
    ensures Count(pos) < Count(next) <= PostingCount(q) && Count(next) == Count(pos) + n
    ensures CoversLive(q, cs, next, live)
    ensures Behind(q, next, p + 1) == {} && forall i :: 0 <= i < |pos| ==> pos[i] <= next[i]
  {
    hide Opened, Tracks, ValidQuery, Frontier, AllPassedBefore, Genuine, Settled, Behind, PassedOver;
    hide IsTopK, PostingCount, Count, FullScore, Ready, CoversLive, Matches, SplitAt;
    var score;
    score, n := ScorePivot(w, live, p, q, cs, heap, pos);
    PushResult(top, p, score, q, cs, heap, pos);
    next := PassPivot(live, p, n, q, cs, heap, pos);
    CurrentSettled(q, pos, next, p, old(top.pushed), old(top.Threshold()), top.Threshold());
    ReadyFacts(q, cs, pos, live);
    CoversPassed(q, cs, pos, next, live, p);
    PassedGoOn(q, pos, next, p);
  }

  lemma PassedGoOn(q: Query, pos: seq<nat>, next: seq<nat>, p: nat)
    requires ValidQuery(q) && AllPassedBefore(q, pos, p) && p < NO_DOCID
    requires Behind(q, pos, p) == {} && PassedOver(q, pos, next, p, |pos|)
    ensures Behind(q, next, p + 1) == {} && forall i :: 0 <= i < |pos| ==> pos[i] <= next[i]
  {
    forall i: nat | i < |pos|
      ensures p < HeadAt(q, next, i)
    {
      assert ValidList(q.lists[i]) && i !in Behind(q, pos, p);
      if HeadAt(q, pos, i) == p {
        AtHead(q.w, q.lists[i], pos[i]);
      }
    }
  }

  lemma CoversPassed(q: Query, cs: seq<Cursor>, pos: seq<nat>, next: seq<nat>, live: seq<Cursor>, p: nat)
    requires |pos| == |q.lists| && CoversLive(q, cs, pos, live) && PassedOver(q, pos, next, p, |pos|)
    ensures |next| == |pos| && CoversLive(q, cs, next, live)
  {
    CoversKept(q, cs, pos, next, live);
  }

  lemma CoversMoved(q: Query, cs: seq<Cursor>, pos: seq<nat>, next: seq<nat>, live: seq<Cursor>, i: nat, p: nat)
    requires |pos| == |q.lists| && CoversLive(q, cs, pos, live) && i < |pos| && Moved(q, pos, next, i, p)
    ensures |next| == |pos| && CoversLive(q, cs, next, live)
  {
    CoversKept(q, cs, pos, next, live);
  }

  lemma ReadyFacts(q: Query, cs: seq<Cursor>, pos: seq<nat>, live: seq<Cursor>)
    requires |pos| == |q.lists| && Ready(q, cs, pos, live)
    ensures CoversLive(q, cs, pos, live) && AreLive(q, pos, Ids(live)) && InOrder(q, pos, Ids(live))
  {
  }

  lemma ChosenIsMember(q: Query, cs: seq<Cursor>, heap: Owners, pos: seq<nat>, live: seq<Cursor>, c: Cursor)
    requires Opened(q, cs, heap) && Tracks(q, cs, heap, pos) && |pos| == |q.lists|
    requires CoversLive(q, cs, pos, live) && c in live
    ensures IsMember(cs, c) && c.docid == HeadAt(q, pos, c.id)
    ensures c in heap && c.docids in heap && c.freqs in heap
  {
    TrackedHead(q, cs, heap, pos, c.id);
  }

  /** Moves a cursor that stands before the pivot up to it. */
  method DragLaggard(chosen: Cursor, p: nat, live: seq<Cursor>, ghost q: Query, ghost cs: seq<Cursor>,
                     ghost heap: Owners, ghost pos: seq<nat>, ghost pushed: set<Result>, ghost threshold: Score)
    returns (ghost next: seq<nat>)
    requires ValidQuery(q) && Opened(q, cs, heap) && Tracks(q, cs, heap, pos) && |pos| == |q.lists|
    requires Frontier(q, pos, p, pushed, threshold) && p < NO_DOCID
    requires CoversLive(q, cs, pos, live) && chosen in live && chosen.docid < p
    modifies heap.Keys
    ensures Tracks(q, cs, heap, next) && |next| == |pos|
    ensures Frontier(q, next, p, pushed, threshold)
    ensures Count(pos) < Count(next) <= PostingCount(q)
    ensures CoversLive(q, cs, next, live)
    ensures forall i :: 0 <= i < |pos| ==> pos[i] <= next[i]
  {
    hide Opened, Tracks, ValidQuery, Frontier, PostingCount, Count, CoversLive;
    ChosenIsMember(q, cs, heap, pos, live, chosen);
    next := MoveGeq(q, cs, heap, pos, chosen, p);
    LaggardDragged(q, pos, next, chosen.id, p, pushed, threshold);
    CoversMoved(q, cs, pos, next, live, chosen.id, p);
  }
}
