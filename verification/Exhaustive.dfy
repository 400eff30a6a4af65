/** Document-at-a-time evaluation of everything: the reference the other two are held
    against. */
module Exhaustive {
  import opened Ranking
  import opened Postings
  import opened PostingCursor
  import opened Sums
  import opened Query
  import opened CursorVector

  ghost function Step(q: Query, pos: seq<nat>, current: nat, i: nat): nat
    requires i < |pos| == |q.lists|
  {
    if HeadAt(q, pos, i) == current then 1 else 0
  }

  lemma PassOne(q: Query, pos: seq<nat>, here: seq<nat>, next: seq<nat>, current: nat, i: nat)
    requires i < |pos| == |q.lists| && PassedOver(q, pos, here, current, i)
    requires OneMoved(here, next, i, Step(q, pos, current, i))
    ensures PassedOver(q, pos, next, current, i + 1)
    ensures Count(next) == Count(here) + Step(q, pos, current, i)
  {
    CountMoved(here, next, i, Step(q, pos, current, i));
  }

  lemma NotYet(q: Query, pos: seq<nat>, here: seq<nat>, current: nat, i: nat)
    requires i < |pos| == |q.lists| && PassedOver(q, pos, here, current, i)
    ensures |here| == |pos| && here[i] == pos[i]
  {
  }

  lemma PassNone(q: Query, pos: seq<nat>, current: nat)
    requires |pos| == |q.lists|
    ensures PassedOver(q, pos, pos, current, 0)
  {
  }

  /** One cursor's part in scoring `current`: its impact if it stands there, and then
      it moves on. */
  method ScoreOne(w: Weigh, c: Cursor, current: nat, ghost q: Query, ghost cs: seq<Cursor>,
                  ghost heap: Owners, ghost pos: seq<nat>, ghost here: seq<nat>)
    returns (score: Score, scored: nat, ghost next: seq<nat>)
    requires q.w == w && ValidQuery(q) && Opened(q, cs, heap) && IsMember(cs, c) && Tracks(q, cs, heap, here)
    requires AllPassedBefore(q, pos, current) && Behind(q, pos, current) == {} && current < NO_DOCID
    requires |pos| == |here| && here[c.id] == pos[c.id]
    modifies c, c.docids, c.freqs
    ensures score == Contributions(q, current)[c.id]
    ensures scored == Step(q, pos, current, c.id)
    ensures Tracks(q, cs, heap, next) && OneMoved(here, next, c.id, scored)
    ensures old(AllThorough(cs)) ==> AllThorough(cs)
  {
    TrackedHead(q, cs, heap, here, c.id);
    ContributionAtHead(q, pos, current, c.id);
    score, scored, next := 0.0, 0, here;
    if !c.exhausted && c.docid == current {
      score := w(c.idf, c.freq, current);
      scored := 1;
      next := MoveNext(q, cs, heap, here, c);
    }
  }

  /** One document at a time: every cursor that stands at `current` adds its impact
      and moves on. */
  method ScoreAndPass(w: Weigh, cs: seq<Cursor>, current: nat,
                      ghost q: Query, ghost heap: Owners, ghost pos: seq<nat>)
    returns (score: Score, scored: nat, ghost next: seq<nat>)
    requires q.w == w && ValidQuery(q) && Opened(q, cs, heap) && Tracks(q, cs, heap, pos)
    requires AllPassedBefore(q, pos, current) && Behind(q, pos, current) == {} && current < NO_DOCID
    modifies heap.Keys
    ensures score == FullScore(q, current) && |next| == |pos|
    ensures Tracks(q, cs, heap, next) && PassedOver(q, pos, next, current, |pos|)
    ensures Count(next) == Count(pos) + scored
    ensures old(AllThorough(cs)) ==> AllThorough(cs)
  {
    hide AllThorough, Tracks, ValidQuery, AllPassedBefore, Behind, Contribution, PassedOver;
    TracksAll(q, cs, heap, pos);
    PassNone(q, pos, current);
    score, scored, next := 0.0, 0, pos;
    for i := 0 to |cs|
      invariant |next| == |cs|
      invariant Tracks(q, cs, heap, next) && PassedOver(q, pos, next, current, i)
      invariant Count(next) == Count(pos) + scored
      invariant old(AllThorough(cs)) ==> AllThorough(cs)
      invariant score == Total(Contributions(q, current), i)
    {
      ghost var here := next;
      NotYet(q, pos, here, current, i);
      var impact, one;
      impact, one, next := ScoreOne(w, cs[i], current, q, cs, heap, pos, here);
      PassOne(q, pos, here, next, current, i);
      score := score + impact;
      scored := scored + one;
    }
  }

  method SmallestDocid(cs: seq<Cursor>, ghost q: Query, ghost heap: Owners, ghost pos: seq<nat>) returns (current: nat)
    requires Opened(q, cs, heap) && Tracks(q, cs, heap, pos)
    ensures current <= NO_DOCID && Behind(q, pos, current) == {}
    ensures current < NO_DOCID ==> exists i :: 0 <= i < |pos| && HeadAt(q, pos, i) == current
  {
    current := NO_DOCID;
    for i := 0 to |cs|
      invariant current <= NO_DOCID && forall j :: 0 <= j < i ==> current <= HeadAt(q, pos, j)
      invariant current < NO_DOCID ==> exists j :: 0 <= j < |pos| && HeadAt(q, pos, j) == current
    {
      TrackedHead(q, cs, heap, pos, i);
      if !cs[i].exhausted && cs[i].docid < current {
        current := cs[i].docid;
      }
    }
  }

  /** With no bound at all to prune by, the smallest docid is the next to settle. */
  lemma ExhaustiveStep(q: Query, pos: seq<nat>, f: nat, current: nat, pushed: set<Result>)
    requires ValidQuery(q) && Frontier(q, pos, f, pushed, 0.0)
    requires current <= NO_DOCID && Behind(q, pos, current) == {}
    requires current < NO_DOCID ==> exists i :: 0 <= i < |pos| && HeadAt(q, pos, i) == current
    ensures f <= current && Frontier(q, pos, current, pushed, 0.0)
    ensures AllPassedBefore(q, pos, current)
    ensures current < NO_DOCID ==> Matches(q, current)
  {
    assert Behind(q, pos, f) == {};
    if current < NO_DOCID {
      var i :| 0 <= i < |pos| && HeadAt(q, pos, i) == current;
      assert ValidList(q.lists[i]) && i !in Behind(q, pos, f);
      AtHead(q.w, q.lists[i], pos[i]);
    }
    forall i: nat, d: nat | i < |q.lists| && f <= d < current && Holds(q.lists[i], d)
      ensures i in Behind(q, pos, current)
    {
      assert ValidList(q.lists[i]);
      HeldAhead(q.lists[i], pos[i], f, d);
    }
    SpanIsHopeless(q, pos, f, current, pushed, 0.0, Maxima(q), {});
  }

  lemma AllRead(q: Query, pos: seq<nat>)
    requires ValidQuery(q) && AllPassedBefore(q, pos, NO_DOCID) && Behind(q, pos, NO_DOCID) == {}
    ensures Count(pos) == PostingCount(q)
  {
    forall i: nat | i < |pos|
      ensures pos[i] == |q.lists[i].postings|
    {
      assert ValidList(q.lists[i]) && i !in Behind(q, pos, NO_DOCID);
      if pos[i] < |q.lists[i].postings| {
        AtHead(q.w, q.lists[i], pos[i]);
      }
    }
    assert pos == Lengths(q);
  }

  /** At the end of the lists, everything was read and every match pushed. */
  lemma AllPushed(q: Query, pos: seq<nat>, pushed: set<Result>)
    requires ValidQuery(q) && Frontier(q, pos, NO_DOCID, pushed, 0.0) && Behind(q, pos, NO_DOCID) == {}
    ensures pushed == AllResults(q) && Count(pos) == PostingCount(q)
  {
    AllRead(q, pos);
  }

  /** Every block was decoded, once. */
  lemma AllDecoded(q: Query, cs: seq<Cursor>, heap: Owners, pos: seq<nat>)
    requires ValidQuery(q) && Opened(q, cs, heap) && Tracks(q, cs, heap, pos) && AllThorough(cs)
    requires |pos| == |q.lists| && Behind(q, pos, NO_DOCID) == {}
    ensures forall i :: 0 <= i < |cs| ==> cs[i].blocksDecoded == |cs[i].blocks|
  {
    forall i: nat | i < |cs|
      ensures cs[i].exhausted
    {
      TrackedHead(q, cs, heap, pos, i);
      assert ValidList(q.lists[i]) && i !in Behind(q, pos, NO_DOCID);
      if pos[i] < |q.lists[i].postings| {
        AtHead(q.w, q.lists[i], pos[i]);
      }
    }
  }

  /** Every document with any query term is scored in full: the reference the other
      two are held against. */
  method DaatOr(w: Weigh, cs: seq<Cursor>, k: nat, ghost q: Query, ghost heap: Owners)
    returns (out: seq<Result>, stats: SearchStats)
    requires 1 <= k && q.w == w && ValidQuery(q)
    requires Opened(q, cs, heap) && Tracks(q, cs, heap, AtStart(q)) && AllThorough(cs)
    modifies heap.Keys
    ensures IsTopK(out, AllResults(q), k)
    ensures stats.postingsScored == PostingCount(q)
    ensures forall i :: 0 <= i < |cs| ==> cs[i].blocksDecoded == |cs[i].blocks|
    ensures stats.fullEvaluations == stats.candidatesSeen == |AllResults(q)|
  {
    hide Opened, Tracks, ValidQuery, Frontier, AllPassedBefore, Genuine, Settled, Behind, PassedOver;
    hide AllThorough, IsTopK, AllResults, PostingCount, Count, FullScore;
    var top := new TopK(k);
    var postingsScored, evaluations := 0, 0;
    ghost var pos, f := AtStart(q), 0;
    Begin(q);
    while true
      invariant Tracks(q, cs, heap, pos) && |pos| == |q.lists| && AllThorough(cs)
      invariant top.Valid() && top.k == k && top !in heap
      invariant Frontier(q, pos, f, top.pushed, 0.0)
      invariant postingsScored == Count(pos) && evaluations == |top.pushed|
      decreases PostingCount(q) - Count(pos)
    {
      var current := SmallestDocid(cs, q, heap, pos);
      ExhaustiveStep(q, pos, f, current, top.pushed);
      if current == NO_DOCID {
        AllPushed(q, pos, top.pushed);
        AllDecoded(q, cs, heap, pos);
        break;
      }
      var score, scored;
      ghost var next;
      score, scored, next := ScoreAndPass(w, cs, current, q, heap, pos);
      CurrentSettled(q, pos, next, current, top.pushed, 0.0, 0.0);
      pos, f := next, current + 1;
      postingsScored := postingsScored + scored;
      evaluations := evaluations + 1;
      PushResult(top, current, score, q, cs, heap, pos);
    }
    out := top.Drain();
    stats := SearchStats(postingsScored, evaluations, evaluations);
  }
}
