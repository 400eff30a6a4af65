/** The state of a search between two rounds, and how each thing a round can do to the
    cursors and the heap carries the run on. */
module SearchRounds {
  import opened Ranking
  import opened Postings
  import opened PostingCursor
  import opened Sums
  import opened Query
  import opened Pruning
  import opened CursorVector
  import opened LiveCursors
  import opened SearchRuns

  /** The cursors stand where the run has brought them, the heap has what it pushed. */
  ghost predicate Stands(q: Query, k: nat, cs: seq<Cursor>, heap: Owners, top: TopK, log: Log)
    requires Opened(q, cs, heap)
    reads heap.Keys, top
  {
    && IsRun(q, k, log) && |log.pos| == |q.lists| && Tracks(q, cs, heap, log.pos)
    && top.Valid() && top.k == k && top !in heap && top.pushed == log.pushed
  }

  lemma StandsAtStart(q: Query, k: nat, cs: seq<Cursor>, heap: Owners, top: TopK)
    requires Opened(q, cs, heap) && Tracks(q, cs, heap, AtStart(q))
    requires top.Valid() && top.k == k && top !in heap && top.pushed == {}
    ensures Stands(q, k, cs, heap, top, Log([], AtStart(q), {}))
    ensures CoversLive(q, cs, AtStart(q), cs)
    ensures Count(AtStart(q)) == 0
  {
    CoversAll(q, cs, heap);
    Begin(q);
  }

  /** The round that the cursors in `live` and a place among them make. */
  ghost function RoundOf(log: Log, live: seq<Cursor>, n: nat, outcome: Outcome): Round
  {
    Round(log.pos, log.pushed, Ids(live), n, outcome)
  }

  ghost function Longer(log: Log, r: Round, next: seq<nat>, pushed: set<Result>): Log
  {
    Extended(log, r.ids, r.pivot, r.outcome, next, pushed)
  }

  /** What a pivot found on the lists' bounds brings with it. */
  lemma PivotFound(q: Query, k: nat, cs: seq<Cursor>, heap: Owners, top: TopK, log: Log, live: seq<Cursor>, n: nat)
    requires ValidQuery(q) && Opened(q, cs, heap) && Stands(q, k, cs, heap, top, log)
    requires Ready(q, cs, log.pos, live) && IsPivot(q, Ids(live), n, top.Threshold())
    ensures var p := live[n].docid;
      && p == HeadAt(q, log.pos, Ids(live)[n]) && p < NO_DOCID && Matches(q, p)
      && AllPassedBefore(q, log.pos, p) && Frontier(q, log.pos, p, log.pushed, top.Threshold())
      && Genuine(q, p, log.pushed)
      && live[0].docid == HeadAt(q, log.pos, Ids(live)[0]) <= p
      && (live[0].docid == p ==> Behind(q, log.pos, p) == {})
      && (live[0].docid != p ==> 0 < n)
      && forall o :: Chooses(q, k, RoundOf(log, live, n, o)) && PivotOf(q, k, RoundOf(log, live, n, o)) == p
  {
    hide IsRun, ThresholdOf, ValidQuery;
    var ids := Ids(live);
    assert IsMember(cs, live[n]) && IsMember(cs, live[0]);
    TrackedHead(q, cs, heap, log.pos, ids[n]);
    TrackedHead(q, cs, heap, log.pos, ids[0]);
    RunKeepsFrontier(q, k, log);
    PivotAdvances(q, log.pos, FrontierOf(q, k, log), log.pushed, top.Threshold(), ids, n);
    assert 0 < n ==> Precedes(q, log.pos, ids[0], ids[n]);
    if live[0].docid == live[n].docid {
      NothingBehind(q, cs, log.pos, live, live[n].docid);
    }
  }

  ghost predicate GoesOn(pos: seq<nat>, next: seq<nat>)
  {
    |next| == |pos| && Count(pos) < Count(next) && forall i :: 0 <= i < |pos| ==> pos[i] <= next[i]
  }

  lemma PivotScored(q: Query, k: nat, log: Log, r: Round, next: seq<nat>, threshold: Score)
    requires IsRun(q, k, log) && r.pos == log.pos && r.pushed == log.pushed
    requires Chooses(q, k, r) && r.outcome == Scored && GoesOn(log.pos, next)
    requires var p := PivotOf(q, k, r);
      Behind(q, next, p + 1) == {} &&
      Frontier(q, next, p + 1, log.pushed + {Result(p, FullScore(q, p))}, threshold)
    ensures var p := PivotOf(q, k, r);
      IsRun(q, k, Longer(log, r, next, log.pushed + {Result(p, FullScore(q, p))}))
  {
    hide IsRun, Chooses, FullScore, Settled, Genuine, AllPassedBefore;
    var p := PivotOf(q, k, r);
    RunExtends(q, k, log, r, next, log.pushed + {Result(p, FullScore(q, p))});
  }

  lemma PivotApproached(q: Query, k: nat, log: Log, r: Round, next: seq<nat>, threshold: Score)
    requires IsRun(q, k, log) && r.pos == log.pos && r.pushed == log.pushed
    requires Chooses(q, k, r) && r.outcome == Approached && GoesOn(log.pos, next)
    requires Frontier(q, next, PivotOf(q, k, r), log.pushed, threshold)
    ensures IsRun(q, k, Longer(log, r, next, log.pushed))
  {
    hide IsRun, Chooses, FullScore, Settled, Genuine, AllPassedBefore;
    RunExtends(q, k, log, r, next, log.pushed);
  }

  lemma PivotJumped(q: Query, k: nat, log: Log, r: Round, next: seq<nat>)
    requires IsRun(q, k, log) && r.pos == log.pos && r.pushed == log.pushed
    requires Chooses(q, k, r) && r.outcome.Jumped? && GoesOn(log.pos, next)
    requires PivotOf(q, k, r) < r.outcome.target && Behind(q, next, r.outcome.target) == {}
    requires Genuine(q, PivotOf(q, k, r), log.pushed)
    requires Frontier(q, next, r.outcome.target, log.pushed, ThresholdOf(log.pushed, k))
    ensures IsRun(q, k, Longer(log, r, next, log.pushed))
  {
    hide IsRun, Chooses, FullScore, AllPassedBefore, ThresholdOf;
    var p, threshold := PivotOf(q, k, r), ThresholdOf(log.pushed, k);
    assert Hopeless(q, p, r.outcome.target, threshold);
    RunExtends(q, k, log, r, next, log.pushed);
  }

  /** With no cursor left, or none that the pivot search stops at, the run has ended. */
  lemma NoPivot(q: Query, k: nat, cs: seq<Cursor>, heap: Owners, top: TopK, log: Log, live: seq<Cursor>)
    requires ValidQuery(q) && Opened(q, cs, heap) && Stands(q, k, cs, heap, top, log)
    requires Ready(q, cs, log.pos, live)
    requires live == [] || Masked(Maxima(q), IdSet(Ids(live))) < top.Threshold()
    ensures Ended(q, k, log) && IsTopK(top.heap, AllResults(q), k)
    ensures |log.pushed| <= |AllResults(q)|
  {
    hide IsRun, ThresholdOf, ValidQuery;
    assert live == [] ==> Ids(live) == [];
    EndedIsExact(q, k, log, top.heap);
    PushedMatch(q, k, log);
  }
}
