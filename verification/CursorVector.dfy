/** The vector of cursors a query opens, the positions it stands for, and what every
    evaluation counts and keeps. */
module CursorVector {
  import opened Ranking
  import opened Postings
  import opened PostingCursor
  import opened Sums
  import opened Query
  import opened Pruning

  datatype SearchStats = SearchStats(postingsScored: nat, fullEvaluations: nat, candidatesSeen: nat)

  // ---- the vector of cursors and the positions it stands for ----

  /** Which cursor of a vector owns an object: itself and its two buffers. */
  type Owners = map<object, nat>

  /** The cursors of a query, in a vector, each with buffers of its own. */
  ghost predicate Opened(q: Query, cs: seq<Cursor>, heap: Owners)
  {
    && |cs| == |q.lists|
    && forall i {:trigger cs[i]} :: 0 <= i < |cs| ==>
         && cs[i].id == i && cs[i].list == q.lists[i]
         && cs[i] in heap && cs[i].docids in heap && cs[i].freqs in heap
         && heap[cs[i]] == heap[cs[i].docids] == heap[cs[i].freqs] == i
  }

  /** Every cursor is sound and has passed as many postings as `pos` says. */
  ghost predicate Tracks(q: Query, cs: seq<Cursor>, heap: Owners, pos: seq<nat>)
    requires Opened(q, cs, heap)
    reads heap.Keys
  {
    && |pos| == |cs|
    && forall i :: 0 <= i < |cs| ==> cs[i].Valid() && cs[i].Passed() == pos[i]
  }

  /** No cursor skipped a block. */
  ghost predicate AllThorough(cs: seq<Cursor>)
    reads cs
  {
    forall i :: 0 <= i < |cs| ==> cs[i].Thorough()
  }

  /** No block is decoded twice. */
  lemma DecodedOnce(q: Query, cs: seq<Cursor>, heap: Owners, pos: seq<nat>)
    requires Opened(q, cs, heap) && Tracks(q, cs, heap, pos)
    ensures forall i :: 0 <= i < |cs| ==> cs[i].blocksDecoded <= |cs[i].blocks|
  {
    assert forall i :: 0 <= i < |cs| ==> cs[i].Valid();
  }

  lemma TracksAll(q: Query, cs: seq<Cursor>, heap: Owners, pos: seq<nat>)
    requires Opened(q, cs, heap) && Tracks(q, cs, heap, pos)
    ensures |pos| == |cs|
  {
  }

  lemma TrackedHead(q: Query, cs: seq<Cursor>, heap: Owners, pos: seq<nat>, i: nat)
    requires Opened(q, cs, heap) && Tracks(q, cs, heap, pos) && i < |cs|
    ensures pos[i] <= |q.lists[i].postings|
    ensures cs[i].docid == HeadAt(q, pos, i)
    ensures cs[i].exhausted <==> pos[i] == |q.lists[i].postings|
    ensures !cs[i].exhausted ==> q.lists[i].postings[pos[i]] == Posting(cs[i].docid, cs[i].freq)
  {
    assert cs[i].Valid();
  }

  ghost predicate IsMember(cs: seq<Cursor>, c: Cursor)
  {
    c.id < |cs| && cs[c.id] == c
  }

  /** Only cursor i has moved, by n postings. */
  ghost predicate OneMoved(here: seq<nat>, next: seq<nat>, i: nat, n: nat)
    requires i < |here|
  {
    && |next| == |here| && next[i] == here[i] + n
    && forall j {:trigger next[j]} :: 0 <= j < |here| && j != i ==> next[j] == here[j]
  }

  lemma CountMoved(here: seq<nat>, next: seq<nat>, i: nat, n: nat)
    requires i < |here| && OneMoved(here, next, i, n)
    ensures Count(next) == Count(here) + n
  {
    assert next == here[i := here[i] + n];
    CountUpdate(here, i, here[i] + n);
  }

  method MoveNext(ghost q: Query, ghost cs: seq<Cursor>, ghost heap: Owners, ghost pos: seq<nat>, c: Cursor)
    returns (ghost next: seq<nat>)
    requires Opened(q, cs, heap) && Tracks(q, cs, heap, pos) && IsMember(cs, c) && !c.exhausted
    modifies c, c.docids, c.freqs
    ensures Tracks(q, cs, heap, next) && OneMoved(pos, next, c.id, 1)
    ensures old(AllThorough(cs)) ==> AllThorough(cs)
  {
    assert cs[c.id].Valid();
    c.Next();
    next := pos[c.id := c.Passed()];
    forall i | 0 <= i < |cs| && i != c.id
      ensures cs[i].Valid() && cs[i].Passed() == pos[i]
    {
      assert old(cs[i].Valid());
    }
  }

  /** What moving a cursor past postings before `target` does to the positions. */
  ghost predicate Moved(q: Query, pos: seq<nat>, next: seq<nat>, i: nat, target: nat)
    requires i < |pos| == |q.lists|
  {
    && |next| == |pos| && next == pos[i := next[i]]
    && pos[i] <= next[i] <= |q.lists[i].postings|
    && forall p :: pos[i] <= p < next[i] ==> q.lists[i].postings[p].docid < target
  }

  method MoveGeq(ghost q: Query, ghost cs: seq<Cursor>, ghost heap: Owners, ghost pos: seq<nat>, c: Cursor, target: nat)
    returns (ghost next: seq<nat>)
    requires Opened(q, cs, heap) && Tracks(q, cs, heap, pos) && IsMember(cs, c) && target <= NO_DOCID
    modifies c, c.docids, c.freqs
    ensures Tracks(q, cs, heap, next) && Moved(q, pos, next, c.id, target)
    ensures target <= HeadAt(q, next, c.id)
  {
    assert cs[c.id].Valid();
    c.NextGeq(target);
    next := pos[c.id := c.Passed()];
    forall i | 0 <= i < |cs| && i != c.id
      ensures cs[i].Valid() && cs[i].Passed() == pos[i]
    {
      assert old(cs[i].Valid());
    }
  }

  method MoveToBlock(ghost q: Query, ghost cs: seq<Cursor>, ghost heap: Owners, ghost pos: seq<nat>, c: Cursor,
                     target: nat)
    returns (ghost next: seq<nat>)
    requires Opened(q, cs, heap) && Tracks(q, cs, heap, pos) && IsMember(cs, c) && target <= NO_DOCID
    modifies c, c.docids, c.freqs
    ensures Tracks(q, cs, heap, next) && Moved(q, pos, next, c.id, target)
    ensures !c.exhausted ==> target <= c.blocks[c.blockIndex].maxDocid
    ensures target <= HeadAt(q, pos, c.id) ==> next == pos
  {
    assert cs[c.id].Valid();
    c.SkipToBlock(target);
    next := pos[c.id := c.Passed()];
    forall i | 0 <= i < |cs| && i != c.id
      ensures cs[i].Valid() && cs[i].Passed() == pos[i]
    {
      assert old(cs[i].Valid());
    }
  }

  // ---- what all evaluations share ----

  ghost function Lengths(q: Query): (v: seq<nat>)
    ensures |v| == |q.lists| && forall i :: 0 <= i < |v| ==> v[i] == |q.lists[i].postings|
  {
    seq(|q.lists|, i requires 0 <= i < |q.lists| => |q.lists[i].postings|)
  }

  ghost function PostingCount(q: Query): nat
  {
    Count(Lengths(q))
  }

  ghost function AtStart(q: Query): (pos: seq<nat>)
    ensures |pos| == |q.lists| && forall i :: 0 <= i < |pos| ==> pos[i] == 0
  {
    seq(|q.lists|, i => 0)
  }

  lemma {:induction false} NothingCounted(v: seq<nat>, n: nat)
    requires n <= |v| && forall i :: 0 <= i < n ==> v[i] == 0
    ensures CountTo(v, n) == 0
  {
    if 0 < n {
      NothingCounted(v, n - 1);
    }
  }

  lemma Begin(q: Query)
    ensures Frontier(q, AtStart(q), 0, {}, 0.0) && Count(AtStart(q)) == 0
  {
    NothingCounted(AtStart(q), |q.lists|);
  }

  /** Unread postings bound what an evaluation can still do. */
  lemma PassedAtMost(q: Query, pos: seq<nat>)
    requires Positions(q, pos)
    ensures Count(pos) <= PostingCount(q)
  {
    CountMonotone(pos, Lengths(q));
  }

  /** A document scored in full goes to the heap; no cursor moves. */
  method PushResult(top: TopK, docid: nat, score: Score,
                    ghost q: Query, ghost cs: seq<Cursor>, ghost heap: Owners, ghost pos: seq<nat>)
    requires Opened(q, cs, heap) && Tracks(q, cs, heap, pos)
    requires top.Valid() && top !in heap && Genuine(q, docid, top.pushed)
    modifies top
    ensures Tracks(q, cs, heap, pos)
    ensures old(AllThorough(cs)) ==> AllThorough(cs)
    ensures top.Valid() && top.pushed == old(top.pushed) + {Result(docid, score)}
    ensures |top.pushed| == |old(top.pushed)| + 1
    ensures top.Threshold() >= old(top.Threshold())
  {
    assert Result(docid, score) !in top.pushed;
    top.Push(docid, score);
    forall i | 0 <= i < |cs|
      ensures cs[i].Valid() && cs[i].Passed() == pos[i]
    {
      assert old(cs[i].Valid());
    }
  }

  /** With nothing behind `current`, a cursor contributes to it what it stands at. */
  lemma ContributionAtHead(q: Query, pos: seq<nat>, current: nat, i: nat)
    requires ValidQuery(q) && AllPassedBefore(q, pos, current) && Behind(q, pos, current) == {}
    requires current < NO_DOCID && i < |pos|
    ensures pos[i] < |q.lists[i].postings| && HeadAt(q, pos, i) == current ==>
      Contributions(q, current)[i] == q.w(q.lists[i].idf, q.lists[i].postings[pos[i]].tf, current)
    ensures HeadAt(q, pos, i) != current ==> Contributions(q, current)[i] == 0.0
  {
    assert ValidList(q.lists[i]) && i !in Behind(q, pos, current);
    if HeadAt(q, pos, i) == current {
      AtHead(q.w, q.lists[i], pos[i]);
    } else if Holds(q.lists[i], current) {
      HeldAhead(q.lists[i], pos[i], current, current);
    }
  }

  /** The first n cursors have moved past `current` if they stood there. */
  ghost predicate PassedOver(q: Query, pos: seq<nat>, next: seq<nat>, current: nat, n: nat)
    requires |pos| == |q.lists|
  {
    && |next| == |pos|
    && forall j {:trigger next[j]} :: 0 <= j < |pos| ==>
         next[j] == if j < n && HeadAt(q, pos, j) == current then pos[j] + 1 else pos[j]
  }

  /** Once a document nothing stands before is pushed, and passed by the cursors
      that stood at it, the frontier is behind it and less is left to read. */
  lemma CurrentSettled(q: Query, pos: seq<nat>, next: seq<nat>, f: nat, pushed: set<Result>,
                       threshold: Score, raised: Score)
    requires ValidQuery(q) && Frontier(q, pos, f, pushed, threshold) && f < NO_DOCID && threshold <= raised
    requires Behind(q, pos, f) == {} && Matches(q, f) && PassedOver(q, pos, next, f, |pos|)
    ensures Genuine(q, f, pushed)
    ensures Frontier(q, next, f + 1, pushed + {Result(f, FullScore(q, f))}, raised)
    ensures Count(pos) < Count(next) <= PostingCount(q)
  {
    PivotSettled(q, pos, next, f, pushed, threshold, raised);
    var i :| 0 <= i < |q.lists| && Holds(q.lists[i], f);
    assert ValidList(q.lists[i]) && i !in Behind(q, pos, f);
    HeldAhead(q.lists[i], pos[i], f, f);
    assert pos[i] < next[i];
    CountMonotone(pos, next);
    PassedAtMost(q, next);
  }
}
