/** One query over several indexes: fetching the best of each, leaving some documents out,
    and merging by score gives the best of all of them together. */
module FanOut {
  import opened Common
  import opened Ranking
  import opened StableSort

  // ---- leaving documents out of one answer ----

  /** The results whose documents are alive, in order. */
  function Alive(rs: seq<Result>, live: nat -> bool): (out: seq<Result>)
    ensures forall r :: r in out <==> r in rs && live(r.docid)
    ensures |out| <= |rs|
  {
    if rs == [] then []
    else
      var n := |rs| - 1;
      assert rs == rs[..n] + [rs[n]];
      if live(rs[n].docid) then Alive(rs[..n], live) + [rs[n]] else Alive(rs[..n], live)
  }

  lemma {:induction false} AliveRanked(rs: seq<Result>, live: nat -> bool)
    requires Ranked(rs)
    ensures Ranked(Alive(rs, live))
  {
    if rs != [] {
      var n := |rs| - 1;
      AliveRanked(rs[..n], live);
      var out := Alive(rs[..n], live);
      forall i | 0 <= i < |out|
        ensures Better(out[i], rs[n])
      {
        assert out[i] in rs[..n];
      }
    }
  }

  /** What a ranked list loses are distinct documents. */
  lemma {:induction false} LossBounded(rs: seq<Result>, live: nat -> bool, dead: set<nat>)
    requires forall i, j :: 0 <= i < j < |rs| ==> rs[i].docid != rs[j].docid
    requires forall r :: r in rs && !live(r.docid) ==> r.docid in dead
    ensures |rs| <= |Alive(rs, live)| + |dead|
    decreases |rs|
  {
    if rs != [] {
      var n := |rs| - 1;
      assert rs[n] in rs;
      if live(rs[n].docid) {
        LossBounded(rs[..n], live, dead);
      } else {
        LossBounded(rs[..n], live, dead - {rs[n].docid});
      }
    }
  }

  /** Results of one index: a document has one score. */
  ghost predicate OneScoreEach(all: set<Result>)
  {
    forall r, s :: r in all && s in all && r.docid == s.docid ==> r == s
  }

  /** Having fetched as many more as there are dead documents, whatever live result is not
      among those fetched is behind at least k live ones that are. */
  lemma FetchedEnough(rs: seq<Result>, all: set<Result>, live: nat -> bool, dead: set<nat>, k: nat, n: nat)
    requires IsTopK(rs, all, n) && OneScoreEach(all) && k + |dead| <= n
    requires forall r :: r in all && !live(r.docid) ==> r.docid in dead
    ensures forall r :: r in all && live(r.docid) && r !in Alive(rs, live) ==>
      k <= |Alive(rs, live)| && forall t :: t in Alive(rs, live) ==> Better(t, r)
  {
    forall i, j | 0 <= i < j < |rs|
      ensures rs[i].docid != rs[j].docid
    {
      assert rs[i] in rs && rs[j] in rs;
      assert Better(rs[i], rs[j]);
    }
    LossBounded(rs, live, dead);
  }

  // ---- all the indexes as one ----

  /** Where an index's documents start when all are put one after the other. */
  function Base(sizes: seq<nat>, i: nat): nat
    requires i <= |sizes|
  {
    if i == 0 then 0 else Base(sizes, i - 1) + sizes[i - 1]
  }

  function Placed(base: nat, r: Result): Result
  {
    Result(base + r.docid, r.score)
  }

  function PlacedAll(base: nat, rs: seq<Result>): (out: seq<Result>)
    ensures |out| == |rs| && forall i :: 0 <= i < |rs| ==> out[i] == Placed(base, rs[i])
  {
    seq(|rs|, i requires 0 <= i < |rs| => Placed(base, rs[i]))
  }

  /** The live results of one index, moved to its place. */
  ghost function Part(base: nat, all: set<Result>, live: nat -> bool): set<Result>
  {
    set r | r in all && live(r.docid) :: Placed(base, r)
  }

  /** The live results of the first n indexes. */
  ghost function Union(sizes: seq<nat>, matches: seq<set<Result>>, live: seq<nat -> bool>, n: nat): set<Result>
    requires n <= |sizes| == |matches| == |live|
  {
    if n == 0 then {}
    else
      Union(sizes, matches, live, n - 1) + Part(Base(sizes, n - 1), matches[n - 1], live[n - 1])
  }

  ghost predicate Fits(size: nat, all: set<Result>)
  {
    OneScoreEach(all) && forall r :: r in all ==> r.docid < size
  }

  /** The merged list of the first n indexes, before sorting. */
  ghost function Merged(sizes: seq<nat>, fetched: seq<seq<Result>>, live: seq<nat -> bool>, n: nat): seq<Result>
    requires n <= |sizes| == |fetched| == |live|
  {
    if n == 0 then []
    else Merged(sizes, fetched, live, n - 1) + PlacedAll(Base(sizes, n - 1), Alive(fetched[n - 1], live[n - 1]))
  }

  /** The list is in the order a stable sort by score needs: among equal scores, by place. */
  ghost predicate TiesInOrder(s: seq<Result>)
  {
    forall i, j :: 0 <= i < j < |s| && s[i].score == s[j].score ==> s[i].docid < s[j].docid
  }

  ghost predicate Covers(s: seq<Result>, all: set<Result>, k: nat)
  {
    && (forall r :: r in s ==> r in all)
    && forall r :: r in all && r !in s ==> BehindMany(s, r, k)
  }

  /** At least k distinct members of a list are better. */
  ghost predicate BehindMany(s: seq<Result>, r: Result, k: nat)
  {
    exists f: seq<Result> :: k <= |f| && Ranked(f) && forall t :: t in f ==> t in s && Better(t, r)
  }

  lemma MoreCovers(s: seq<Result>, all: set<Result>, more: seq<Result>, rest: set<Result>, k: nat)
    requires Covers(s, all, k) && Covers(more, rest, k)
    ensures Covers(s + more, all + rest, k)
  {
    forall r | r in all + rest && r !in s + more
      ensures BehindMany(s + more, r, k)
    {
      if r in all {
        var f :| k <= |f| && Ranked(f) && forall t :: t in f ==> t in s && Better(t, r);
        assert forall t :: t in f ==> t in s + more && Better(t, r);
      } else {
        var f :| k <= |f| && Ranked(f) && forall t :: t in f ==> t in more && Better(t, r);
        assert forall t :: t in f ==> t in s + more && Better(t, r);
      }
    }
  }

  /** One index's part, moved to its place. */
  lemma PartCovers(base: nat, rs: seq<Result>, all: set<Result>, live: nat -> bool, dead: set<nat>, k: nat, n: nat)
    requires IsTopK(rs, all, n) && OneScoreEach(all) && k + |dead| <= n
    requires forall r :: r in all && !live(r.docid) ==> r.docid in dead
    ensures Covers(PlacedAll(base, Alive(rs, live)), Part(base, all, live), k)
  {
    hide IsTopK, OneScoreEach, Alive;
    var kept := Alive(rs, live);
    var s := PlacedAll(base, kept);
    var part := Part(base, all, live);
    FetchedEnough(rs, all, live, dead, k, n);
    KeptRanked(rs, all, live, n);
    forall i | 0 <= i < |s|
      ensures s[i] in part
    {
      assert kept[i] in kept && kept[i] in all;
    }
    forall x | x in kept
      ensures Placed(base, x) in s
    {
      var i :| 0 <= i < |kept| && kept[i] == x;
      assert s[i] == Placed(base, x);
    }
    forall r | r in part && r !in s
      ensures BehindMany(s, r, k)
    {
      var r0 :| r0 in all && live(r0.docid) && Placed(base, r0) == r;
      assert r0 !in kept;
      forall t | t in s
        ensures Better(t, r)
      {
        var i :| 0 <= i < |s| && s[i] == t;
        assert kept[i] in kept;
      }
      assert Ranked(s);
    }
  }

  lemma DeadPart(base: nat, rs: seq<Result>, all: set<Result>, live: nat -> bool, k: nat, n: nat)
    requires IsTopK(rs, all, n) && NoneAlive(all, live)
    ensures Covers(PlacedAll(base, Alive(rs, live)), Part(base, all, live), k)
  {
    AliveNone(rs, live);
  }

  lemma {:induction false} AliveNone(rs: seq<Result>, live: nat -> bool)
    requires forall r :: r in rs ==> !live(r.docid)
    ensures Alive(rs, live) == []
  {
    if rs != [] {
      assert rs[|rs| - 1] in rs;
      AliveNone(rs[..|rs| - 1], live);
    }
  }

  lemma KeptRanked(rs: seq<Result>, all: set<Result>, live: nat -> bool, n: nat)
    requires IsTopK(rs, all, n)
    ensures Ranked(Alive(rs, live)) && forall r :: r in Alive(rs, live) ==> r in all && live(r.docid)
  {
    AliveRanked(rs, live);
  }

  /** A list, sorted by descending score and cut to k, lists the k best of all it covers. */
  lemma SortedCut(s: seq<Result>, sorted: seq<Result>, all: set<Result>, k: nat)
    requires Covers(s, all, k) && Ranked(sorted) && forall r :: r in sorted <==> r in s
    ensures IsTopK(FirstK(sorted, k), all, k)
  {
    var top := FirstK(sorted, k);
    forall r | r in all && r !in top
      ensures |top| == k && forall t :: t in top ==> Better(t, r)
    {
      if r in sorted {
        var j :| 0 <= j < |sorted| && sorted[j] == r;
        assert k <= j;
      } else {
        var f :| k <= |f| && Ranked(f) && forall t :: t in f ==> t in s && Better(t, r);
        FrontIsBetter(sorted, f, r, k);
      }
    }
    assert forall t :: t in top ==> t in sorted;
  }

  lemma FrontIsBetter(sorted: seq<Result>, f: seq<Result>, r: Result, k: nat)
    requires Ranked(sorted) && Ranked(f) && k <= |f| && r !in sorted
    requires forall t :: t in f ==> t in sorted && Better(t, r)
    ensures k <= |sorted| && forall i :: 0 <= i < k ==> Better(sorted[i], r)
  {
    RankedNoLonger(f, sorted);
    forall i | 0 <= i < k
      ensures Better(sorted[i], r)
    {
      if !Better(sorted[i], r) {
        forall t | t in f
          ensures t in sorted[..i]
        {
          var m :| 0 <= m < |sorted| && sorted[m] == t;
          AheadOf(sorted, i, m, r);
        }
        RankedNoLonger(f, sorted[..i]);
      }
    }
  }

  lemma AheadOf(sorted: seq<Result>, i: nat, m: nat, r: Result)
    requires Ranked(sorted) && i < |sorted| && m < |sorted| && Better(sorted[m], r) && !Better(sorted[i], r)
    ensures m < i
  {
  }

  /** A ranked list repeats nothing, so it is no longer than a list with all its members. */
  lemma {:induction false} RankedNoLonger(f: seq<Result>, s: seq<Result>)
    requires Ranked(f) && forall t :: t in f ==> t in s
    ensures |f| <= |s|
    decreases |f|
  {
    if f != [] {
      var n := |f| - 1;
      assert f[n] in f;
      var i :| 0 <= i < |s| && s[i] == f[n];
      var rest := s[..i] + s[i + 1..];
      forall t | t in f[..n]
        ensures t in rest
      {
        assert t in f;
        var j :| 0 <= j < n && f[j] == t;
        assert Better(f[j], f[n]);
        var m :| 0 <= m < |s| && s[m] == t;
        assert m < i ==> rest[m] == t;
        assert i < m ==> rest[m - 1] == t;
      }
      RankedNoLonger(f[..n], rest);
    }
  }

  // ---- the whole merge ----

  function ByScore(r: Result): real { 0.0 - r.score as real }

  lemma SortedByScore(s: seq<Result>)
    requires TiesInOrder(s)
    ensures Ranked(Sort(s, ByScore))
  {
    var before := (x: Result, y: Result) => Better(x, y);
    SortChain(s, ByScore, before);
    var t := Sort(s, ByScore);
    forall i, j | 0 <= i < j < |t|
      ensures Better(t[i], t[j])
    {
      assert before(t[i], t[j]);
    }
  }

  /** What was fetched from an index: a list of its best, long enough for k live ones; or
      nothing of it is alive. */
  ghost predicate Fetched(size: nat, all: set<Result>, live: nat -> bool, rs: seq<Result>, k: nat)
  {
    Fits(size, all) && exists n: nat ::
      IsTopK(rs, all, n) &&
      (NoneAlive(all, live) || exists dead: set<nat> :: DeadWithin(all, live, dead) && k + |dead| <= n)
  }

  ghost predicate NoneAlive(all: set<Result>, live: nat -> bool)
  {
    forall r :: r in all ==> !live(r.docid)
  }

  ghost predicate DeadWithin(all: set<Result>, live: nat -> bool, dead: set<nat>)
  {
    forall r :: r in all && !live(r.docid) ==> r.docid in dead
  }

  lemma {:induction false} MergedCovers(sizes: seq<nat>, matches: seq<set<Result>>, live: seq<nat -> bool>,
                                        fetched: seq<seq<Result>>, k: nat, n: nat)
    requires n <= |sizes| == |matches| == |live| == |fetched|
    requires forall i :: 0 <= i < n ==> Fetched(sizes[i], matches[i], live[i], fetched[i], k)
    ensures Covers(Merged(sizes, fetched, live, n), Union(sizes, matches, live, n), k)
    ensures TiesInOrder(Merged(sizes, fetched, live, n))
    ensures forall r :: r in Merged(sizes, fetched, live, n) ==> r.docid < Base(sizes, n)
  {
    hide Covers, Fits, IsTopK, Alive, TiesInOrder, Fetched, Part;
    if n == 0 {
      NothingCovered(k);
    } else {
      var i := n - 1;
      MergedCovers(sizes, matches, live, fetched, k, i);
      OneMore(Merged(sizes, fetched, live, i), Union(sizes, matches, live, i), Base(sizes, i), sizes[i], matches[i],
              live[i], fetched[i], k);
    }
  }

  lemma OneMore(s: seq<Result>, union: set<Result>, base: nat, size: nat, all: set<Result>, live: nat -> bool,
                rs: seq<Result>, k: nat)
    requires Covers(s, union, k) && TiesInOrder(s) && forall r :: r in s ==> r.docid < base
    requires Fetched(size, all, live, rs, k)
    ensures var t := s + PlacedAll(base, Alive(rs, live));
      && Covers(t, union + Part(base, all, live), k)
      && TiesInOrder(t) && forall r :: r in t ==> r.docid < base + size
  {
    hide Covers, Fits, IsTopK, Alive, TiesInOrder, Part;
    var m: nat :| IsTopK(rs, all, m) &&
      (NoneAlive(all, live) || exists dead: set<nat> :: DeadWithin(all, live, dead) && k + |dead| <= m);
    if NoneAlive(all, live) {
      DeadPart(base, rs, all, live, k, m);
    } else {
      var dead: set<nat> :| DeadWithin(all, live, dead) && k + |dead| <= m;
      FitsOneScore(size, all);
      PartCovers(base, rs, all, live, dead, k, m);
    }
    MoreCovers(s, union, PlacedAll(base, Alive(rs, live)), Part(base, all, live), k);
    KeptRanked(rs, all, live, m);
    MoreTies(s, base, Alive(rs, live), size, all);
  }

  lemma NothingCovered(k: nat)
    ensures Covers([], {}, k) && TiesInOrder([])
  {
  }

  lemma FitsOneScore(size: nat, all: set<Result>)
    requires Fits(size, all)
    ensures OneScoreEach(all)
  {
  }

  lemma MoreTies(s: seq<Result>, base: nat, kept: seq<Result>, size: nat, all: set<Result>)
    requires TiesInOrder(s) && (forall r :: r in s ==> r.docid < base) && Ranked(kept)
    requires Fits(size, all) && forall r :: r in kept ==> r in all
    ensures TiesInOrder(s + PlacedAll(base, kept))
    ensures forall r :: r in s + PlacedAll(base, kept) ==> r.docid < base + size
  {
    var more := PlacedAll(base, kept);
    var t := s + more;
    forall i | 0 <= i < |more|
      ensures base <= more[i].docid < base + size
    {
      assert kept[i] in kept;
    }
    forall i, j | 0 <= i < j < |t| && t[i].score == t[j].score
      ensures t[i].docid < t[j].docid
    {
      if j < |s| {
      } else if i < |s| {
        assert t[i] in s;
        assert t[j] == more[j - |s|];
      } else {
        assert Better(kept[i - |s|], kept[j - |s|]);
      }
    }
  }

  /** Whatever was fetched, nothing is listed that is not a live match, and ties stand in
      order of place. */
  lemma {:induction false} MergedIsSound(sizes: seq<nat>, matches: seq<set<Result>>, live: seq<nat -> bool>,
                                         fetched: seq<seq<Result>>, n: nat)
    requires n <= |sizes| == |matches| == |live| == |fetched|
    requires forall i :: 0 <= i < n ==> FetchedSome(sizes[i], matches[i], fetched[i])
    ensures forall r :: r in Merged(sizes, fetched, live, n) ==> r in Union(sizes, matches, live, n)
    ensures TiesInOrder(Merged(sizes, fetched, live, n))
    ensures forall r :: r in Merged(sizes, fetched, live, n) ==> r.docid < Base(sizes, n)
  {
    hide Fits, Ranked, Alive, TiesInOrder, Part, PlacedAll, FetchedSome;
    if n == 0 {
      NothingCovered(0);
    } else {
      var i := n - 1;
      MergedIsSound(sizes, matches, live, fetched, i);
      KeptSound(Base(sizes, i), sizes[i], matches[i], live[i], fetched[i]);
      MoreTies(Merged(sizes, fetched, live, i), Base(sizes, i), Alive(fetched[i], live[i]), sizes[i], matches[i]);
    }
  }

  /** Some of an index's matches, best first. */
  ghost predicate FetchedSome(size: nat, all: set<Result>, rs: seq<Result>)
  {
    Fits(size, all) && Ranked(rs) && forall r :: r in rs ==> r in all
  }

  lemma KeptSound(base: nat, size: nat, all: set<Result>, live: nat -> bool, rs: seq<Result>)
    requires FetchedSome(size, all, rs)
    ensures Fits(size, all) && Ranked(Alive(rs, live)) && forall r :: r in Alive(rs, live) ==> r in all
    ensures forall r :: r in PlacedAll(base, Alive(rs, live)) ==> r in Part(base, all, live)
  {
    hide Fits, Ranked;
    AliveRanked(rs, live);
    var kept := Alive(rs, live);
    forall r | r in PlacedAll(base, kept)
      ensures r in Part(base, all, live)
    {
      var i :| 0 <= i < |kept| && r == Placed(base, kept[i]);
      assert kept[i] in kept;
    }
  }

  /** The union, said of its members: the live matches of each part, each at its place. */
  lemma {:induction false} UnionMembers(sizes: seq<nat>, matches: seq<set<Result>>, live: seq<nat -> bool>, n: nat,
                                         r: Result)
    requires n <= |sizes| == |matches| == |live|
    ensures r in Union(sizes, matches, live, n) <==>
      exists i :: 0 <= i < n && StandsFor(r, Base(sizes, i), matches[i], live[i])
  {
    hide Base;
    if 0 < n {
      UnionMembers(sizes, matches, live, n - 1, r);
    }
  }

  /** A live match of a part that starts at `base` stands at r. */
  ghost predicate StandsFor(r: Result, base: nat, all: set<Result>, live: nat -> bool)
  {
    base <= r.docid && live(r.docid - base) && Result(r.docid - base, r.score) in all
  }

  /** Exactness: the merged answer is the k best of all the live documents, ordered by
      score, then index, then docid. */
  lemma MergeIsExact(sizes: seq<nat>, matches: seq<set<Result>>, live: seq<nat -> bool>,
                     fetched: seq<seq<Result>>, k: nat)
    requires |sizes| == |matches| == |live| == |fetched|
    requires forall i :: 0 <= i < |sizes| ==> Fetched(sizes[i], matches[i], live[i], fetched[i], k)
    ensures var sorted := Sort(Merged(sizes, fetched, live, |sizes|), ByScore);
      IsTopK(FirstK(sorted, k), Union(sizes, matches, live, |sizes|), k)
  {
    hide Covers, Fetched, IsTopK, TiesInOrder, Merged, Union, Sort, Base;
    MergedCovers(sizes, matches, live, fetched, k, |sizes|);
    SortedIsExact(Merged(sizes, fetched, live, |sizes|), Union(sizes, matches, live, |sizes|), k);
  }

  lemma SortedIsExact(s: seq<Result>, all: set<Result>, k: nat)
    requires Covers(s, all, k) && TiesInOrder(s)
    ensures IsTopK(FirstK(Sort(s, ByScore), k), all, k)
  {
    hide Covers, IsTopK, TiesInOrder, Sort, Ranked;
    SortedByScore(s);
    SortPermutes(s, ByScore);
    SortedCut(s, Sort(s, ByScore), all, k);
  }
}
