/** Whole runs of WAND and BlockMax-WAND: round after round a pivot is chosen from
    where the cursors stand and from what has been pushed, and is scored, approached or
    jumped. What every such run keeps is proved here, whatever the evaluation. */
module SearchRuns {
  import opened Common
  import opened Ranking
  import opened Postings
  import opened Sums
  import opened Query
  import opened Pruning
  import opened CursorVector

  /** What a round does about its pivot: score it, move cursors up to it, or jump over
      it to a target. */
  datatype Outcome = Scored | Approached | Jumped(target: nat)

  /** Where the cursors stood and what had been pushed when the round began, the cursors
      left in docid order, and the place in that order of the pivot. */
  datatype Round = Round(pos: seq<nat>, pushed: set<Result>, ids: seq<nat>, pivot: nat, outcome: Outcome)

  datatype Log = Log(rounds: seq<Round>, pos: seq<nat>, pushed: set<Result>)

  /** The round's pivot is the one the code chooses: in docid order, the first cursor at
      which the sum of the lists' bounds reaches the score of the k-th best so far. */
  ghost predicate Chooses(q: Query, k: nat, r: Round)
  {
    && |r.pos| == |q.lists|
    && AreLive(q, r.pos, r.ids) && InOrder(q, r.pos, r.ids)
    && IsPivot(q, r.ids, r.pivot, ThresholdOf(r.pushed, k))
  }

  ghost function PivotOf(q: Query, k: nat, r: Round): nat
    requires Chooses(q, k, r)
  {
    HeadAt(q, r.pos, r.ids[r.pivot])
  }

  /** How far a round gets: cursors pass only postings before this document. */
  ghost function Reached(q: Query, k: nat, r: Round): nat
    requires Chooses(q, k, r)
  {
    match r.outcome
    case Scored => PivotOf(q, k, r) + 1
    case Approached => PivotOf(q, k, r)
    case Jumped(target) => target
  }

  /** What a round may do. Only the pivot is ever pushed, and with its complete score;
      no cursor goes back and some cursor goes on; only postings before the pivot are
      passed, the pivot itself when it is scored, and more only if no document up to the
      target reaches the threshold. */
  ghost predicate Follows(q: Query, k: nat, r: Round, next: seq<nat>, pushed: set<Result>)
    requires Chooses(q, k, r)
  {
    var p, g := PivotOf(q, k, r), Reached(q, k, r);
    && |next| == |r.pos| && (forall i :: 0 <= i < |next| ==> r.pos[i] <= next[i])
    && Count(r.pos) < Count(next)
    && AllPassedBefore(q, next, g)
    && (!r.outcome.Approached? ==> Behind(q, next, g) == {})
    && pushed == (if r.outcome.Scored? then r.pushed + {Result(p, FullScore(q, p))} else r.pushed)
    && (r.outcome.Jumped? ==> p < g <= NO_DOCID && Hopeless(q, p, g, ThresholdOf(r.pushed, k)))
  }

  ghost predicate Hopeless(q: Query, from: nat, to: nat, threshold: Score)
  {
    forall d: nat :: from <= d < to && Matches(q, d) ==> FullScore(q, d) < threshold
  }

  ghost function Earlier(log: Log): Log
    requires log.rounds != []
  {
    var n := |log.rounds| - 1;
    Log(log.rounds[..n], log.rounds[n].pos, log.rounds[n].pushed)
  }

  /** From the starts of the lists and an empty heap, each round on where the last one
      ended. */
  ghost predicate IsRun(q: Query, k: nat, log: Log)
    decreases |log.rounds|
  {
    if log.rounds == [] then log.pos == AtStart(q) && log.pushed == {}
    else
      var last := log.rounds[|log.rounds| - 1];
      IsRun(q, k, Earlier(log)) && Chooses(q, k, last) && Follows(q, k, last, log.pos, log.pushed)
  }

  /** No cursor is left, or all that are left stay below the threshold together. */
  ghost predicate Ended(q: Query, k: nat, log: Log)
  {
    |log.pos| == |q.lists| &&
    exists ids :: AreLive(q, log.pos, ids) &&
      (ids == [] || Masked(Maxima(q), IdSet(ids)) < ThresholdOf(log.pushed, k))
  }

  ghost function Extended(log: Log, ids: seq<nat>, pivot: nat, outcome: Outcome, next: seq<nat>,
                          pushed: set<Result>): Log
  {
    Log(log.rounds + [Round(log.pos, log.pushed, ids, pivot, outcome)], next, pushed)
  }

  lemma RunExtends(q: Query, k: nat, log: Log, r: Round, next: seq<nat>, pushed: set<Result>)
    requires IsRun(q, k, log) && r.pos == log.pos && r.pushed == log.pushed
    requires Chooses(q, k, r) && Follows(q, k, r, next, pushed)
    ensures IsRun(q, k, Extended(log, r.ids, r.pivot, r.outcome, next, pushed))
  {
    hide Chooses, Follows;
    var more := Extended(log, r.ids, r.pivot, r.outcome, next, pushed);
    assert more.rounds[|more.rounds| - 1] == r;
    assert Earlier(more) == log;
  }

  // ---- what every run keeps ----

  /** How far the last round got. */
  ghost function FrontierOf(q: Query, k: nat, log: Log): nat
    requires IsRun(q, k, log)
  {
    if log.rounds == [] then 0 else Reached(q, k, log.rounds[|log.rounds| - 1])
  }

  /** At every moment of every run each document before the frontier is pushed with its
      complete score or scores below the k-th best, and nothing else has been pushed. */
  lemma {:induction false} RunKeepsFrontier(q: Query, k: nat, log: Log)
    requires ValidQuery(q) && 1 <= k && IsRun(q, k, log)
    ensures Frontier(q, log.pos, FrontierOf(q, k, log), log.pushed, ThresholdOf(log.pushed, k))
    decreases |log.rounds|
  {
    if log.rounds == [] {
      Begin(q);
      NoThreshold(k);
    } else {
      var r := log.rounds[|log.rounds| - 1];
      RunKeepsFrontier(q, k, Earlier(log));
      PivotAdvances(q, r.pos, FrontierOf(q, k, Earlier(log)), r.pushed, ThresholdOf(r.pushed, k), r.ids, r.pivot);
      RoundKeepsFrontier(q, k, r, log.pos, log.pushed);
    }
  }

  lemma NoThreshold(k: nat)
    requires 1 <= k
    ensures ThresholdOf({}, k) == 0.0
  {
  }

  lemma RoundKeepsFrontier(q: Query, k: nat, r: Round, next: seq<nat>, pushed: set<Result>)
    requires ValidQuery(q) && 1 <= k && Chooses(q, k, r) && Follows(q, k, r, next, pushed)
    requires Frontier(q, r.pos, PivotOf(q, k, r), r.pushed, ThresholdOf(r.pushed, k))
    requires PivotOf(q, k, r) < NO_DOCID && Matches(q, PivotOf(q, k, r))
    ensures Frontier(q, next, Reached(q, k, r), pushed, ThresholdOf(pushed, k))
  {
    hide ValidQuery, AllPassedBefore, Behind, Masked, Maxima, FullScore, Matches, ThresholdOf;
    var p := PivotOf(q, k, r);
    if r.outcome.Approached? {
      FrontierKept(q, r.pos, next, p, pushed, ThresholdOf(pushed, k));
    } else if r.outcome.Scored? {
      assert Result(p, FullScore(q, p)) !in r.pushed;
      ThresholdGrows(r.pushed, Result(p, FullScore(q, p)), k);
    }
  }

  /** Any run that has come to its end is exact: what it pushed has the same k best as
      all matching documents. */
  lemma EndedIsExact(q: Query, k: nat, log: Log, top: seq<Result>)
    requires ValidQuery(q) && 1 <= k && IsRun(q, k, log) && Ended(q, k, log)
    requires IsTopK(top, log.pushed, k)
    ensures IsTopK(top, AllResults(q), k)
  {
    var f, threshold := FrontierOf(q, k, log), ThresholdOf(log.pushed, k);
    RunKeepsFrontier(q, k, log);
    var ids :| AreLive(q, log.pos, ids) && (ids == [] || Masked(Maxima(q), IdSet(ids)) < threshold);
    NothingLeft(q, log.pos, f, log.pushed, threshold, ids);
    ThresholdReached(top, log.pushed, k);
    SettledIsExact(q, f, top, log.pushed, k, threshold);
  }

  /** Only matching documents are pushed, so no more are scored than there are. */
  lemma PushedMatch(q: Query, k: nat, log: Log)
    requires ValidQuery(q) && 1 <= k && IsRun(q, k, log)
    ensures log.pushed <= AllResults(q) && |log.pushed| <= |AllResults(q)|
  {
    hide IsRun, ValidQuery, ThresholdOf, FullScore, Matches;
    RunKeepsFrontier(q, k, log);
    forall r | r in log.pushed
      ensures r in AllResults(q)
    {
      assert r == Result(r.docid, FullScore(q, r.docid));
    }
    SubsetSize(log.pushed, AllResults(q));
  }

  // ---- pivots never go back ----

  ghost function Prefix(log: Log, n: nat): Log
    requires n <= |log.rounds|
  {
    if n == |log.rounds| then log else Log(log.rounds[..n], log.rounds[n].pos, log.rounds[n].pushed)
  }

  lemma LastFollows(q: Query, k: nat, log: Log)
    requires IsRun(q, k, log) && log.rounds != []
    ensures IsRun(q, k, Earlier(log)) && Chooses(q, k, log.rounds[|log.rounds| - 1])
    ensures Follows(q, k, log.rounds[|log.rounds| - 1], log.pos, log.pushed)
  {
    hide Chooses, Follows;
  }

  lemma {:induction false} PrefixIsRun(q: Query, k: nat, log: Log, n: nat)
    requires IsRun(q, k, log) && n <= |log.rounds|
    ensures IsRun(q, k, Prefix(log, n))
    ensures n < |log.rounds| ==> Chooses(q, k, log.rounds[n])
    decreases |log.rounds|
  {
    hide IsRun, Chooses, Follows;
    var last := |log.rounds| - 1;
    if n <= last {
      LastFollows(q, k, log);
      if n == last {
        assert Prefix(log, n) == Earlier(log);
      } else {
        PrefixIsRun(q, k, Earlier(log), n);
        assert Earlier(log).rounds[..n] == log.rounds[..n];
      }
    }
  }

  ghost function PivotAt(q: Query, k: nat, log: Log, n: nat): nat
    requires IsRun(q, k, log) && n < |log.rounds|
  {
    PrefixIsRun(q, k, log, n);
    PivotOf(q, k, log.rounds[n])
  }

  lemma NextPivot(q: Query, k: nat, log: Log, n: nat)
    requires ValidQuery(q) && 1 <= k && IsRun(q, k, log) && n + 1 < |log.rounds|
    ensures PivotAt(q, k, log, n) <= PivotAt(q, k, log, n + 1)
    ensures !log.rounds[n].outcome.Approached? ==> PivotAt(q, k, log, n) < PivotAt(q, k, log, n + 1)
  {
    hide Frontier, ValidQuery, Follows, ThresholdOf;
    PrefixIsRun(q, k, log, n);
    PrefixIsRun(q, k, log, n + 1);
    var run, r := Prefix(log, n + 1), log.rounds[n + 1];
    RunKeepsFrontier(q, k, run);
    PivotAdvances(q, r.pos, FrontierOf(q, k, run), r.pushed, ThresholdOf(r.pushed, k), r.ids, r.pivot);
    assert run.rounds[n] == log.rounds[n];
    JumpsForward(q, k, run);
  }

  lemma JumpsForward(q: Query, k: nat, log: Log)
    requires IsRun(q, k, log) && log.rounds != []
    ensures var r := log.rounds[|log.rounds| - 1];
      && PivotOf(q, k, r) <= Reached(q, k, r)
      && (!r.outcome.Approached? ==> PivotOf(q, k, r) < Reached(q, k, r))
  {
  }

  /** Pivots never go back, and go strictly on past one that was scored or jumped. */
  lemma {:induction false} PivotsAscend(q: Query, k: nat, log: Log, m: nat, n: nat)
    requires ValidQuery(q) && 1 <= k && IsRun(q, k, log) && m < n < |log.rounds|
    ensures PivotAt(q, k, log, m) <= PivotAt(q, k, log, n)
    ensures !log.rounds[m].outcome.Approached? ==> PivotAt(q, k, log, m) < PivotAt(q, k, log, n)
    decreases n
  {
    hide IsRun, ValidQuery;
    NextPivot(q, k, log, n - 1);
    if m < n - 1 {
      PivotsAscend(q, k, log, m, n - 1);
    }
  }

  /** What round n pushes if it scores its pivot. */
  ghost function ResultAt(q: Query, k: nat, log: Log, n: nat): Result
    requires IsRun(q, k, log) && n < |log.rounds|
  {
    Result(PivotAt(q, k, log, n), FullScore(q, PivotAt(q, k, log, n)))
  }

  lemma ResultBefore(q: Query, k: nat, log: Log, n: nat)
    requires IsRun(q, k, log) && n < |log.rounds| - 1
    ensures IsRun(q, k, Earlier(log)) && ResultAt(q, k, Earlier(log), n) == ResultAt(q, k, log, n)
  {
    hide IsRun, Chooses, Follows, FullScore;
    LastFollows(q, k, log);
  }

  ghost predicate PushedIn(q: Query, k: nat, log: Log, r: Result, n: nat)
    requires IsRun(q, k, log)
  {
    n < |log.rounds| && log.rounds[n].outcome.Scored? && r == ResultAt(q, k, log, n)
  }

  /** One round fewer, and one scored round fewer if the last one scored. */
  lemma RoundsEarlier(log: Log)
    requires log.rounds != []
    ensures var n := |log.rounds| - 1;
      && |Earlier(log).rounds| == n
      && ScoredRounds(log.rounds) ==
         ScoredRounds(Earlier(log).rounds) + (if log.rounds[n].outcome.Scored? then 1 else 0)
      && forall i :: 0 <= i < n ==> Earlier(log).rounds[i] == log.rounds[i]
  {
  }

  lemma {:induction false} PushedSomewhere(q: Query, k: nat, log: Log, r: Result) returns (n: nat)
    requires ValidQuery(q) && 1 <= k && IsRun(q, k, log) && r in log.pushed
    ensures PushedIn(q, k, log, r, n)
    decreases |log.rounds|
  {
    assert log.rounds != [];
    hide IsRun, ValidQuery, ResultAt, Earlier, ScoredRounds;
    RoundsEarlier(log);
    LastRound(q, k, log);
    if r in Earlier(log).pushed {
      n := PushedSomewhere(q, k, Earlier(log), r);
      ResultBefore(q, k, log, n);
    } else {
      n := |log.rounds| - 1;
    }
  }

  lemma {:induction false} ScoredIsPushed(q: Query, k: nat, log: Log, n: nat)
    requires ValidQuery(q) && 1 <= k && IsRun(q, k, log) && n < |log.rounds| && log.rounds[n].outcome.Scored?
    ensures ResultAt(q, k, log, n) in log.pushed
    decreases |log.rounds|
  {
    hide IsRun, ValidQuery, ResultAt, Earlier, ScoredRounds;
    RoundsEarlier(log);
    LastRound(q, k, log);
    if n < |log.rounds| - 1 {
      ResultBefore(q, k, log, n);
      ScoredIsPushed(q, k, Earlier(log), n);
    }
  }

  lemma {:induction false} PushedCount(q: Query, k: nat, log: Log)
    requires ValidQuery(q) && 1 <= k && IsRun(q, k, log)
    ensures |log.pushed| == ScoredRounds(log.rounds)
    decreases |log.rounds|
  {
    if log.rounds != [] {
      hide IsRun, ValidQuery, ResultAt, Earlier, ScoredRounds;
      var last := |log.rounds| - 1;
      RoundsEarlier(log);
      LastRound(q, k, log);
      PushedCount(q, k, Earlier(log));
      PushedOne(Earlier(log).pushed, ResultAt(q, k, log, last), log.rounds[last].outcome.Scored?);
    }
  }

  lemma PushedOne(pushed: set<Result>, r: Result, scored: bool)
    requires r !in pushed
    ensures |pushed + if scored then {r} else {}| == |pushed| + if scored then 1 else 0
  {
  }

  /** What is pushed is what the scored rounds had for pivots, and each of those rounds
      pushes a document not pushed before. */
  lemma PushedAreScored(q: Query, k: nat, log: Log)
    requires ValidQuery(q) && 1 <= k && IsRun(q, k, log)
    ensures forall r :: r in log.pushed <==> exists n: nat :: PushedIn(q, k, log, r, n)
    ensures |log.pushed| == ScoredRounds(log.rounds)
  {
    hide IsRun, ValidQuery, ResultAt;
    forall r
      ensures r in log.pushed <==> exists n: nat :: PushedIn(q, k, log, r, n)
    {
      if r in log.pushed {
        var n := PushedSomewhere(q, k, log, r);
      } else if n: nat :| PushedIn(q, k, log, r, n) {
        ScoredIsPushed(q, k, log, n);
      }
    }
    PushedCount(q, k, log);
  }

  lemma LastRound(q: Query, k: nat, log: Log)
    requires ValidQuery(q) && 1 <= k && IsRun(q, k, log) && log.rounds != []
    ensures var n := |log.rounds| - 1; var r := ResultAt(q, k, log, n);
      && IsRun(q, k, Earlier(log)) && r !in Earlier(log).pushed
      && log.pushed == Earlier(log).pushed + if log.rounds[n].outcome.Scored? then {r} else {}
  {
    hide IsRun, ValidQuery, Frontier, ThresholdOf;
    var r, before := log.rounds[|log.rounds| - 1], Earlier(log);
    LastFollows(q, k, log);
    RunKeepsFrontier(q, k, before);
    PivotAdvances(q, r.pos, FrontierOf(q, k, before), r.pushed, ThresholdOf(r.pushed, k), r.ids, r.pivot);
    NotYetPushed(q, r.pos, PivotOf(q, k, r), r.pushed, ThresholdOf(r.pushed, k));
  }

  lemma NotYetPushed(q: Query, pos: seq<nat>, p: nat, pushed: set<Result>, threshold: Score)
    requires Frontier(q, pos, p, pushed, threshold)
    ensures Result(p, FullScore(q, p)) !in pushed
  {
  }

  function ScoredRounds(rounds: seq<Round>): nat
  {
    if rounds == [] then 0
    else ScoredRounds(rounds[..|rounds| - 1]) + if rounds[|rounds| - 1].outcome.Scored? then 1 else 0
  }
}
