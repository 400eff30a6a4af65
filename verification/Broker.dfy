/** Asking every shard and merging, and asking replicas of the slow ones too. */
module Broker {
  import opened Common
  import opened Ranking
  import opened StableSort
  import opened FanOut

  /** A shard answers or the call raises. */
  datatype Reply = Answered(results: seq<Result>) | Failed

  datatype MergedResult = MergedResult(docid: nat, score: Score, shard: nat)

  datatype Outcome = Merged(results: seq<MergedResult>) | Raised

  function MergedScore(r: MergedResult): real { 0.0 - r.score as real }

  function Tagged(rs: seq<Result>, shard: nat): (out: seq<MergedResult>)
    ensures |out| == |rs| && forall i :: 0 <= i < |rs| ==> out[i] == MergedResult(rs[i].docid, rs[i].score, shard)
  {
    seq(|rs|, i requires 0 <= i < |rs| => MergedResult(rs[i].docid, rs[i].score, shard))
  }

  predicate AllAnswered(replies: seq<Reply>)
  {
    forall i :: 0 <= i < |replies| ==> replies[i].Answered?
  }

  function Collected(replies: seq<Reply>, n: nat): seq<MergedResult>
    requires n <= |replies| && AllAnswered(replies)
  {
    if n == 0 then [] else Collected(replies, n - 1) + Tagged(replies[n - 1].results, n - 1)
  }

  /** What comes of the shards' replies: no answer is made of a part of them. */
  function Combine(replies: seq<Reply>, k: nat): Outcome
  {
    if AllAnswered(replies) then Merged(FirstK(Sort(Collected(replies, |replies|), MergedScore), k)) else Raised
  }

  // ---- exactness ----

  /** Where a result stands when the shards follow one another. */
  function Place(sizes: seq<nat>, r: MergedResult): Result
  {
    if r.shard <= |sizes| then Result(Base(sizes, r.shard) + r.docid, r.score) else Result(r.docid, r.score)
  }

  function Places(sizes: seq<nat>, rs: seq<MergedResult>): (out: seq<Result>)
    ensures |out| == |rs| && forall i :: 0 <= i < |rs| ==> out[i] == Place(sizes, rs[i])
  {
    seq(|rs|, i requires 0 <= i < |rs| => Place(sizes, rs[i]))
  }

  function Everyone(n: nat): (lives: seq<nat -> bool>)
    ensures |lives| == n && forall i :: 0 <= i < n ==> lives[i] == Always
  {
    seq(n, i => Always)
  }

  const Always: nat -> bool := (d: nat) => true

  function Results(replies: seq<Reply>): (out: seq<seq<Result>>)
    requires AllAnswered(replies)
    ensures |out| == |replies| && forall i :: 0 <= i < |out| ==> out[i] == replies[i].results
  {
    seq(|replies|, i requires 0 <= i < |replies| => replies[i].results)
  }

  lemma {:induction false} AllAlive(rs: seq<Result>)
    ensures Alive(rs, Always) == rs
  {
    if rs != [] {
      AllAlive(rs[..|rs| - 1]);
    }
  }

  lemma {:induction false} CollectedAre(sizes: seq<nat>, replies: seq<Reply>, n: nat)
    requires n <= |replies| == |sizes| && AllAnswered(replies)
    ensures Places(sizes, Collected(replies, n)) ==
      FanOut.Merged(sizes, Results(replies), Everyone(|replies|), n)
  {
    hide Alive;
    if 0 < n {
      CollectedAre(sizes, replies, n - 1);
      AllAlive(replies[n - 1].results);
      PlacesJoin(sizes, Collected(replies, n - 1), Tagged(replies[n - 1].results, n - 1));
    }
  }

  lemma PlacesJoin(sizes: seq<nat>, a: seq<MergedResult>, b: seq<MergedResult>)
    ensures Places(sizes, a + b) == Places(sizes, a) + Places(sizes, b)
  {
  }

  /** What each shard's reply should be: its k best. */
  ghost predicate RepliesRight(sizes: seq<nat>, matches: seq<set<Result>>, replies: seq<Reply>, k: nat)
  {
    && |sizes| == |matches| == |replies| && AllAnswered(replies)
    && forall i :: 0 <= i < |replies| ==> Fits(sizes[i], matches[i]) && IsTopK(replies[i].results, matches[i], k)
  }

  /** Exactness: the merged answer is the k best of all the shards' documents together, by
      score, then shard, then docid. */
  lemma CombineIsExact(sizes: seq<nat>, matches: seq<set<Result>>, replies: seq<Reply>, k: nat)
    requires RepliesRight(sizes, matches, replies, k)
    ensures IsExact(sizes, matches, k, Combine(replies, k))
  {
    hide IsTopK, Fits, Fetched, Union, FanOut.Merged, Collected, Sort;
    forall i | 0 <= i < |sizes|
      ensures Fetched(sizes[i], matches[i], Always, Results(replies)[i], k)
    {
      AllFetched(sizes[i], matches[i], replies[i].results, k);
    }
    MergeIsExact(sizes, matches, Everyone(|sizes|), Results(replies), k);
    CollectedAre(sizes, replies, |replies|);
    var all := Collected(replies, |replies|);
    SortMapped(all, Places(sizes, all), MergedScore, ByScore, (r: MergedResult) => Place(sizes, r));
    assert Places(sizes, Sort(all, MergedScore)) == Sort(Places(sizes, all), ByScore);
    assert Places(sizes, FirstK(Sort(all, MergedScore), k)) == FirstK(Places(sizes, Sort(all, MergedScore)), k);
  }

  /** The first k of all shards' documents together, by score, then shard, then docid. */
  ghost predicate IsExact(sizes: seq<nat>, matches: seq<set<Result>>, k: nat, outcome: Outcome)
    requires |sizes| == |matches|
  {
    outcome.Merged? &&
    IsTopK(Places(sizes, outcome.results), Union(sizes, matches, Everyone(|sizes|), |sizes|), k)
  }

  lemma AllFetched(size: nat, all: set<Result>, rs: seq<Result>, k: nat)
    requires Fits(size, all) && IsTopK(rs, all, k)
    ensures Fetched(size, all, Always, rs, k)
  {
    hide IsTopK;
    var nobody: set<nat> := {};
    assert DeadWithin(all, Always, nobody) && k + |nobody| <= k;
  }

  // ---- hedging ----

  /** How the race for one shard went: whether its primary was past the delay, and then
      whether the replica's call finished first. */
  datatype Race = Race(late: bool, backupWins: bool)

  function Winner(primary: Reply, replica: Reply, race: Race): Reply
  {
    if race.late && race.backupWins then replica else primary
  }

  function Winners(primaries: seq<Reply>, replicas: seq<Reply>, races: seq<Race>): (out: seq<Reply>)
    requires |primaries| == |replicas| == |races|
    ensures |out| == |primaries|
    ensures forall i :: 0 <= i < |out| ==> out[i] == Winner(primaries[i], replicas[i], races[i])
  {
    seq(|primaries|, i requires 0 <= i < |primaries| => Winner(primaries[i], replicas[i], races[i]))
  }

  /** Two calls come to the same: the very same reply, failures included, or each the k
      best of the shard's matches. */
  ghost predicate SameAnswer(primary: Reply, replica: Reply, k: nat)
  {
    || primary == replica
    || (primary.Answered? && replica.Answered? &&
        exists all :: IsTopK(primary.results, all, k) && IsTopK(replica.results, all, k))
  }

  /** When the two calls come to the same for every shard whose replica won, the outcome is
      that of the unhedged broker, whatever won: there is only one list of the k best. */
  lemma RaceDoesNotMatter(primaries: seq<Reply>, replicas: seq<Reply>, races: seq<Race>, k: nat)
    requires |races| == |primaries| == |replicas|
    requires forall i :: 0 <= i < |races| && races[i].late && races[i].backupWins ==>
      SameAnswer(primaries[i], replicas[i], k)
    ensures Combine(Winners(primaries, replicas, races), k) == Combine(primaries, k)
  {
    hide Combine, IsTopK;
    var winners := Winners(primaries, replicas, races);
    forall i | 0 <= i < |winners|
      ensures winners[i] == primaries[i]
    {
      if races[i].late && races[i].backupWins && primaries[i] != replicas[i] {
        var all :| IsTopK(primaries[i].results, all, k) && IsTopK(replicas[i].results, all, k);
        TopKUnique(replicas[i].results, primaries[i].results, all, k);
      }
    }
    assert winners == primaries;
  }

  /** How many shards were hedged. */
  function Hedged(races: seq<Race>): (n: nat)
    ensures n <= |races|
  {
    if races == [] then 0 else Hedged(races[..|races| - 1]) + if races[|races| - 1].late then 1 else 0
  }

  /** The shards past the delay. */
  function LateShards(races: seq<Race>): (late: set<nat>)
    ensures forall i: nat :: i in late <==> i < |races| && races[i].late
  {
    set i: nat | i < |races| && races[i].late
  }

  lemma {:induction false} HedgedCounts(races: seq<Race>)
    ensures Hedged(races) == |LateShards(races)|
  {
    hide LateShards;
    if races == [] {
      assert LateShards(races) == {};
    } else {
      var n := |races| - 1;
      HedgedCounts(races[..n]);
      assert LateShards(races) == LateShards(races[..n]) + if races[n].late then {n} else {};
    }
  }

  /** No partial answer: one failure raises. */
  lemma RaisedIfFailed(replies: seq<Reply>, k: nat)
    ensures Combine(replies, k) == Raised <==> exists i :: 0 <= i < |replies| && replies[i] == Failed
  {
  }

  // ---- the brokers ----

  method Merge(replies: seq<Reply>, k: nat) returns (outcome: Outcome)
    ensures outcome == Combine(replies, k)
  {
    hide Sort;
    var merged: seq<MergedResult> := [];
    for i := 0 to |replies|
      invariant forall j :: 0 <= j < i ==> replies[j].Answered?
      invariant i == |replies| ==> merged == Collected(replies, i)
      invariant AllAnswered(replies) ==> merged == Collected(replies, i)
    {
      if replies[i].Failed? {
        return Raised;
      }
      merged := merged + Tagged(replies[i].results, i);
    }
    return Merged(FirstK(Sort(merged, MergedScore), k));
  }

  class Broker {
    const clients: seq<nat -> Reply>

    constructor (clients: seq<nat -> Reply>)
      requires clients != []
      ensures this.clients == clients
    {
      this.clients := clients;
    }

    /** No answer if a shard fails, and an exact one if every shard gives its k best. */
    method Dispatch(k: nat, ghost sizes: seq<nat>, ghost matches: seq<set<Result>>) returns (outcome: Outcome)
      ensures outcome == Combine(Replies(clients, k), k)
      ensures outcome == Raised <==> exists i :: 0 <= i < |clients| && clients[i](k) == Failed
      ensures RepliesRight(sizes, matches, Replies(clients, k), k) ==> IsExact(sizes, matches, k, outcome)
    {
      hide IsExact, RepliesRight;
      var replies := Replies(clients, k);
      if RepliesRight(sizes, matches, replies, k) {
        CombineIsExact(sizes, matches, replies, k);
      }
      outcome := Merge(replies, k);
    }
  }

  function Replies(clients: seq<nat -> Reply>, k: nat): (out: seq<Reply>)
    ensures |out| == |clients| && forall i :: 0 <= i < |out| ==> out[i] == clients[i](k)
  {
    seq(|clients|, i requires 0 <= i < |clients| => clients[i](k))
  }

  class HedgedBroker {
    const clients: seq<nat -> Reply>
    const replicas: seq<nat -> Reply>
    var backupCallsSent: nat
    var totalShardCalls: nat

    /** No more backups than calls. */
    ghost predicate Valid()
      reads this
    {
      |clients| == |replicas| && backupCallsSent <= totalShardCalls
    }

    constructor (clients: seq<nat -> Reply>, replicas: seq<nat -> Reply>)
      requires clients != [] && |clients| == |replicas|
      ensures Valid() && this.clients == clients && this.replicas == replicas
      ensures backupCallsSent == 0 && totalShardCalls == 0
    {
      this.clients, this.replicas := clients, replicas;
      backupCallsSent, totalShardCalls := 0, 0;
    }

    /** Pass 1: every call past the delay gets a backup, before any race is waited for. */
    method SendBackups(k: nat, races: seq<Race>) returns (backups: map<nat, Reply>)
      requires |races| == |replicas|
      modifies this`backupCallsSent
      ensures backupCallsSent == old(backupCallsSent) + Hedged(races)
      ensures forall j: nat :: j in backups <==> j < |races| && races[j].late
      ensures forall j: nat :: j in backups ==> backups[j] == Replies(replicas, k)[j]
    {
      backups := map[];
      for i := 0 to |races|
        invariant backupCallsSent == old(backupCallsSent) + Hedged(races[..i])
        invariant forall j: nat :: j in backups <==> j < i && races[j].late
        invariant forall j: nat :: j in backups ==> backups[j] == Replies(replicas, k)[j]
      {
        assert races[..i + 1][..i] == races[..i];
        if races[i].late {
          backups := backups[i := replicas[i](k)];
          backupCallsSent := backupCallsSent + 1;
        }
      }
      assert races[..|races|] == races;
    }

    /** Pass 2: with a backup, the first of the two to finish is taken, be it a failure. */
    method Resolve(primaries: seq<Reply>, backups: map<nat, Reply>, races: seq<Race>, ghost seconds: seq<Reply>)
      returns (results: seq<Reply>)
      requires |races| == |primaries| == |seconds|
      requires forall j: nat :: j in backups <==> j < |races| && races[j].late
      requires forall j: nat :: j in backups ==> backups[j] == seconds[j]
      ensures results == Winners(primaries, seconds, races) && |results| == |primaries|
      ensures forall i :: 0 <= i < |results| ==>
        results[i] == if races[i].late && races[i].backupWins then seconds[i] else primaries[i]
    {
      results := [];
      for i := 0 to |primaries|
        invariant results == Winners(primaries, seconds, races)[..i]
      {
        var reply := if i in backups && races[i].backupWins then backups[i] else primaries[i];
        results := results + [reply];
      }
      assert results == Winners(primaries, seconds, races);
    }

    method Dispatch(k: nat, races: seq<Race>, ghost sizes: seq<nat>, ghost matches: seq<set<Result>>)
      returns (outcome: Outcome)
      requires Valid() && |races| == |clients|
      modifies this
      ensures Valid()
      ensures var winners := Winners(Replies(clients, k), Replies(replicas, k), races);
        && outcome == Combine(winners, k)
        && (RepliesRight(sizes, matches, winners, k) ==> IsExact(sizes, matches, k, outcome))
      ensures outcome == Raised <==>
        exists i :: 0 <= i < |clients| &&
          (if races[i].late && races[i].backupWins then replicas[i](k) else clients[i](k)) == Failed
      ensures totalShardCalls == old(totalShardCalls) + |clients|
      ensures backupCallsSent == old(backupCallsSent) + Hedged(races)
    {
      hide Combine, IsExact, RepliesRight, Winners;
      totalShardCalls := totalShardCalls + |clients|;
      var primaries := Replies(clients, k);
      var backups := SendBackups(k, races);
      var results := Resolve(primaries, backups, races, Replies(replicas, k));
      RaisedIfFailed(results, k);
      if RepliesRight(sizes, matches, results, k) {
        CombineIsExact(sizes, matches, results, k);
      }
      outcome := Merge(results, k);
    }
  }
}
