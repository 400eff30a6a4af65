/** Searching a set of segments, deleted documents left out. */
module SegmentSet {
  import opened Common
  import opened Ranking
  import opened StableSort
  import opened FanOut

  /** A segment as a search sees it: the ids of its documents, and its index's answer to
      the query for any number of results. */
  datatype Searchable = Searchable(ids: seq<string>, search: nat -> seq<Result>)

  /** A result of the whole set. The program keeps the id and the score; the docid of
      `place` is where the document stands when the segments follow one another. */
  datatype Hit = Hit(id: string, place: Result)

  function HitScore(h: Hit): real { 0.0 - h.place.score as real }

  function Places(hits: seq<Hit>): (places: seq<Result>)
    ensures |places| == |hits| && forall i :: 0 <= i < |hits| ==> places[i] == hits[i].place
  {
    seq(|hits|, i requires 0 <= i < |hits| => hits[i].place)
  }

  lemma SortPlaces(hits: seq<Hit>)
    ensures Places(Sort(hits, HitScore)) == Sort(Places(hits), ByScore)
  {
    SortMapped(hits, Places(hits), HitScore, ByScore, (h: Hit) => h.place);
  }

  function Untombed(ids: seq<string>, tombstones: set<string>): nat -> bool
  {
    (d: nat) => d < |ids| && ids[d] !in tombstones
  }

  ghost function Sizes(segments: seq<Searchable>): (sizes: seq<nat>)
    ensures |sizes| == |segments| && forall i :: 0 <= i < |sizes| ==> sizes[i] == |segments[i].ids|
  {
    seq(|segments|, i requires 0 <= i < |segments| => |segments[i].ids|)
  }

  ghost function Lives(segments: seq<Searchable>, tombstones: set<string>): (lives: seq<nat -> bool>)
    ensures |lives| == |segments|
    ensures forall i :: 0 <= i < |lives| ==> lives[i] == Untombed(segments[i].ids, tombstones)
  {
    seq(|segments|, i requires 0 <= i < |segments| => Untombed(segments[i].ids, tombstones))
  }

  ghost function Answers(segments: seq<Searchable>, n: nat): (answers: seq<seq<Result>>)
    ensures |answers| == |segments| && forall i :: 0 <= i < |answers| ==> answers[i] == segments[i].search(n)
  {
    seq(|segments|, i requires 0 <= i < |segments| => segments[i].search(n))
  }

  /** The indexes answer as they should. */
  ghost predicate AllAnswer(segments: seq<Searchable>, matches: seq<set<Result>>)
  {
    && |segments| == |matches|
    && forall i :: 0 <= i < |segments| ==> Fits(|segments[i].ids|, matches[i]) && Sound(segments[i], matches[i])
  }

  ghost predicate Sound(s: Searchable, all: set<Result>)
  {
    forall n: nat :: 1 <= n ==> IsTopK(s.search(n), all, n)
  }

  // ---- when fetching as many more as there are tombstones is enough ----

  /** The deleted documents of a segment. */
  ghost function Buried(ids: seq<string>, tombstones: set<string>): (dead: set<nat>)
    ensures forall d: nat :: d in dead <==> d < |ids| && ids[d] in tombstones
  {
    set d: nat | d < |ids| && ids[d] in tombstones
  }

  /** No more of its documents are deleted than there are tombstones, or all are. */
  ghost predicate Coverable(ids: seq<string>, tombstones: set<string>)
  {
    |Buried(ids, tombstones)| <= |tombstones| || forall d: nat :: d < |ids| ==> ids[d] in tombstones
  }

  /** Which is so when no id stands twice in the segment. */
  lemma {:induction false} DistinctIdsCover(ids: seq<string>, tombstones: set<string>)
    requires forall i, j :: 0 <= i < j < |ids| ==> ids[i] != ids[j]
    ensures |Buried(ids, tombstones)| <= |tombstones|
    decreases |ids|
  {
    if ids == [] {
      assert Buried(ids, tombstones) == {};
    } else {
      var n := |ids| - 1;
      if ids[n] in tombstones {
        DistinctIdsCover(ids[..n], tombstones - {ids[n]});
        assert Buried(ids, tombstones) == Buried(ids[..n], tombstones - {ids[n]}) + {n};
      } else {
        DistinctIdsCover(ids[..n], tombstones);
        assert Buried(ids, tombstones) == Buried(ids[..n], tombstones);
      }
    }
  }

  ghost function LivePart(ids: seq<string>, tombstones: set<string>, all: set<Result>): set<Result>
  {
    set r | r in all && Untombed(ids, tombstones)(r.docid)
  }

  /** One segment's share of an exact answer, for one query. */
  ghost predicate ExactOn(ids: seq<string>, tombstones: set<string>, all: set<Result>, rs: seq<Result>, k: nat)
  {
    var kept := Alive(rs, Untombed(ids, tombstones));
    IsTopK(FirstK(kept, k), LivePart(ids, tombstones, all), k)
  }

  /** Exact on every query a segment with these ids can get. */
  ghost predicate AlwaysExact(ids: seq<string>, tombstones: set<string>)
  {
    forall all: set<Result>, rs: seq<Result>, k: nat ::
      1 <= k && Fits(|ids|, all) && IsTopK(rs, all, k + |tombstones|) ==> ExactOn(ids, tombstones, all, rs, k)
  }

  lemma CoverableIsExact(ids: seq<string>, tombstones: set<string>, all: set<Result>, rs: seq<Result>, k: nat)
    requires Coverable(ids, tombstones) && 1 <= k && Fits(|ids|, all) && IsTopK(rs, all, k + |tombstones|)
    ensures ExactOn(ids, tombstones, all, rs, k)
  {
    hide IsTopK;
    var live := Untombed(ids, tombstones);
    var kept := Alive(rs, live);
    KeptRanked(rs, all, live, k + |tombstones|);
    if |Buried(ids, tombstones)| <= |tombstones| {
      FetchedEnough(rs, all, live, Buried(ids, tombstones), k, k + |tombstones|);
    }
    CutIsTopK(kept, LivePart(ids, tombstones, all), k);
  }

  lemma CutIsTopK(kept: seq<Result>, part: set<Result>, k: nat)
    requires Ranked(kept) && forall r :: r in kept ==> r in part
    requires forall r :: r in part && r !in kept ==> k <= |kept| && forall t :: t in kept ==> Better(t, r)
    ensures IsTopK(FirstK(kept, k), part, k)
  {
    var top := FirstK(kept, k);
    forall r | r in part && r !in top
      ensures |top| == k && forall t :: t in top ==> Better(t, r)
    {
      if r in kept {
        var j :| 0 <= j < |kept| && kept[j] == r;
        assert k <= j;
      }
    }
  }

  /** What a query matches on which a segment with too many deleted documents loses a live
      one: the deleted ones all score better. */
  ghost function Losing(ids: seq<string>, tombstones: set<string>, alive: nat, high: Score, low: Score): set<Result>
  {
    (set d | d in Buried(ids, tombstones) :: Result(d, high)) + {Result(alive, low)}
  }

  lemma {:induction false} ScoredSize(dead: set<nat>, score: Score)
    ensures |set d | d in dead :: Result(d, score)| == |dead|
    decreases dead
  {
    if dead != {} {
      var d0 :| d0 in dead;
      var rest := dead - {d0};
      ScoredSize(rest, score);
      assert (set d | d in dead :: Result(d, score)) == (set d | d in rest :: Result(d, score)) + {Result(d0, score)};
    } else {
      assert (set d | d in dead :: Result(d, score)) == {};
    }
  }

  lemma {:induction false} AsManyAs(all: set<Result>, s: seq<Result>)
    requires forall r :: r in all ==> r in s
    ensures |all| <= |s|
  {
    if s != [] {
      var n := |s| - 1;
      AsManyAs(all - {s[n]}, s[..n]);
    } else {
      assert all == {};
    }
  }

  /** All that is fetched is deleted. */
  lemma LastNotFetched(ids: seq<string>, tombstones: set<string>, alive: nat, high: Score, low: Score, rs: seq<Result>)
    requires |tombstones| < |Buried(ids, tombstones)| && alive < |ids| && ids[alive] !in tombstones && low < high
    requires IsTopK(rs, Losing(ids, tombstones, alive, high, low), 1 + |tombstones|)
    ensures Result(alive, low) !in rs
    ensures forall r :: r in rs ==> r.docid < |ids| && ids[r.docid] in tombstones
  {
    var all := Losing(ids, tombstones, alive, high, low);
    ScoredSize(Buried(ids, tombstones), high);
    assert |all| == |Buried(ids, tombstones)| + 1;
    if Result(alive, low) in rs {
      AsManyAs(all, rs);
      assert false;
    }
  }

  lemma Loses(ids: seq<string>, tombstones: set<string>, alive: nat, high: Score, low: Score, rs: seq<Result>)
    requires |tombstones| < |Buried(ids, tombstones)| && alive < |ids| && ids[alive] !in tombstones && low < high
    requires IsTopK(rs, Losing(ids, tombstones, alive, high, low), 1 + |tombstones|)
    ensures !ExactOn(ids, tombstones, Losing(ids, tombstones, alive, high, low), rs, 1)
  {
    LastNotFetched(ids, tombstones, alive, high, low, rs);
    var live := Untombed(ids, tombstones);
    assert forall r :: r in rs ==> !live(r.docid);
    AliveNone(rs, live);
    assert Result(alive, low) in LivePart(ids, tombstones, Losing(ids, tombstones, alive, high, low));
  }

  /** Fetching k and as many more as there are tombstones is always enough exactly when no
      more of the segment's documents are deleted than there are tombstones, or all are. */
  lemma OverFetchEnough(ids: seq<string>, tombstones: set<string>)
    ensures AlwaysExact(ids, tombstones) <==> Coverable(ids, tombstones)
  {
    hide IsTopK, ExactOn;
    if Coverable(ids, tombstones) {
      forall all: set<Result>, rs: seq<Result>, k: nat
        | 1 <= k && Fits(|ids|, all) && IsTopK(rs, all, k + |tombstones|)
        ensures ExactOn(ids, tombstones, all, rs, k)
      {
        CoverableIsExact(ids, tombstones, all, rs, k);
      }
    } else {
      var alive: nat :| alive < |ids| && ids[alive] !in tombstones;
      var all := Losing(ids, tombstones, alive, 2.0, 1.0);
      var rs := Best(all, 1 + |tombstones|);
      Loses(ids, tombstones, alive, 2.0, 1.0, rs);
      assert Fits(|ids|, all);
    }
  }

  // ---- the search ----

  /** The pairs of one segment that survive, in order. */
  function Surviving(ids: seq<string>, tombstones: set<string>, pairs: seq<Result>, base: nat): seq<Hit>
    requires forall r :: r in pairs ==> r.docid < |ids|
  {
    if pairs == [] then []
    else
      var n := |pairs| - 1;
      var r := pairs[n];
      assert r in pairs;
      var before := Surviving(ids, tombstones, pairs[..n], base);
      if ids[r.docid] !in tombstones then before + [Hit(ids[r.docid], Placed(base, r))] else before
  }

  /** A hit carries the id of the document at its place. */
  ghost predicate NamedIn(h: Hit, base: nat, ids: seq<string>)
  {
    base <= h.place.docid < base + |ids| && h.id == ids[h.place.docid - base]
  }

  ghost predicate Named(segments: seq<Searchable>, hits: seq<Hit>)
  {
    forall h :: h in hits ==> exists i :: 0 <= i < |segments| && NamedIn(h, Base(Sizes(segments), i), segments[i].ids)
  }

  lemma {:induction false} SurvivingAre(ids: seq<string>, tombstones: set<string>, pairs: seq<Result>, base: nat)
    requires forall r :: r in pairs ==> r.docid < |ids|
    ensures Places(Surviving(ids, tombstones, pairs, base)) == PlacedAll(base, Alive(pairs, Untombed(ids, tombstones)))
    ensures forall h :: h in Surviving(ids, tombstones, pairs, base) ==> NamedIn(h, base, ids)
  {
    hide Places, PlacedAll, Alive, Untombed, NamedIn;
    if pairs != [] {
      var n := |pairs| - 1;
      var r := pairs[n];
      assert r in pairs;
      SurvivingAre(ids, tombstones, pairs[..n], base);
      OneMorePlaced(pairs, base, Untombed(ids, tombstones));
      UntombedAt(ids, tombstones, r.docid);
      var hit := Hit(ids[r.docid], Placed(base, r));
      PlacesJoin(Surviving(ids, tombstones, pairs[..n], base), [hit]);
      OneNamed(ids, base, r);
    }
  }

  lemma OneNamed(ids: seq<string>, base: nat, r: Result)
    requires r.docid < |ids|
    ensures NamedIn(Hit(ids[r.docid], Placed(base, r)), base, ids)
  {
  }

  lemma OneMorePlaced(pairs: seq<Result>, base: nat, live: nat -> bool)
    requires pairs != []
    ensures var n := |pairs| - 1;
      PlacedAll(base, Alive(pairs, live)) ==
      if live(pairs[n].docid) then PlacedAll(base, Alive(pairs[..n], live)) + [Placed(base, pairs[n])]
      else PlacedAll(base, Alive(pairs[..n], live))
  {
    hide Alive, PlacedAll, Placed;
    var n := |pairs| - 1;
    AliveLast(pairs, live);
    PlacedPush(base, Alive(pairs[..n], live), pairs[n]);
  }

  lemma AliveLast(pairs: seq<Result>, live: nat -> bool)
    requires pairs != []
    ensures var n := |pairs| - 1;
      Alive(pairs, live) ==
      if live(pairs[n].docid) then Alive(pairs[..n], live) + [pairs[n]] else Alive(pairs[..n], live)
  {
  }

  lemma PlacedPush(base: nat, rs: seq<Result>, r: Result)
    ensures PlacedAll(base, rs + [r]) == PlacedAll(base, rs) + [Placed(base, r)]
  {
  }

  lemma UntombedAt(ids: seq<string>, tombstones: set<string>, d: nat)
    requires d < |ids|
    ensures Untombed(ids, tombstones)(d) <==> ids[d] !in tombstones
  {
  }

  ghost predicate InRange(segments: seq<Searchable>, n: nat)
  {
    forall i, r :: 0 <= i < |segments| && r in segments[i].search(n) ==> r.docid < |segments[i].ids|
  }

  /** What the first n segments give, unsorted. */
  ghost function Gathered(segments: seq<Searchable>, tombstones: set<string>, fetch: nat, n: nat): seq<Hit>
    requires n <= |segments| && InRange(segments, fetch)
  {
    if n == 0 then []
    else
      Gathered(segments, tombstones, fetch, n - 1) +
      Surviving(segments[n - 1].ids, tombstones, segments[n - 1].search(fetch), Base(Sizes(segments), n - 1))
  }

  lemma {:induction false} GatheredAre(segments: seq<Searchable>, tombstones: set<string>, fetch: nat, n: nat)
    requires n <= |segments| && InRange(segments, fetch)
    ensures Places(Gathered(segments, tombstones, fetch, n)) ==
      Merged(Sizes(segments), Answers(segments, fetch), Lives(segments, tombstones), n)
    ensures Named(segments, Gathered(segments, tombstones, fetch, n))
  {
    hide Places, Named, Surviving, InRange, Sizes, Answers, Lives, Merged, Gathered, Base;
    GatheredStep(segments, tombstones, fetch, n);
    if n == 0 {
      NoHits(segments, tombstones, fetch);
    } else {
      var i := n - 1;
      GatheredAre(segments, tombstones, fetch, i);
      HereInRange(segments, fetch, i);
      OneSegmentMore(segments, tombstones, fetch, i, Gathered(segments, tombstones, fetch, i));
    }
  }

  lemma GatheredStep(segments: seq<Searchable>, tombstones: set<string>, fetch: nat, n: nat)
    requires n <= |segments| && InRange(segments, fetch)
    ensures n == 0 ==> Gathered(segments, tombstones, fetch, n) == []
    ensures 0 < n ==>
      Gathered(segments, tombstones, fetch, n) ==
      Gathered(segments, tombstones, fetch, n - 1) +
      Surviving(segments[n - 1].ids, tombstones, segments[n - 1].search(fetch), Base(Sizes(segments), n - 1))
  {
    hide Surviving;
  }

  lemma OneSegmentMore(segments: seq<Searchable>, tombstones: set<string>, fetch: nat, i: nat, before: seq<Hit>)
    requires i < |segments| && forall r :: r in segments[i].search(fetch) ==> r.docid < |segments[i].ids|
    requires Places(before) == Merged(Sizes(segments), Answers(segments, fetch), Lives(segments, tombstones), i)
    requires Named(segments, before)
    ensures var s := segments[i];
      var hits := Surviving(s.ids, tombstones, s.search(fetch), Base(Sizes(segments), i));
      && Places(before + hits) == Merged(Sizes(segments), Answers(segments, fetch), Lives(segments, tombstones), i + 1)
      && Named(segments, before + hits)
  {
    hide Places, PlacedAll, Alive, Untombed, Named, NamedIn, Surviving, Sizes, Answers, Lives;
    var s, base := segments[i], Base(Sizes(segments), i);
    var hits := Surviving(s.ids, tombstones, s.search(fetch), base);
    SurvivingAre(s.ids, tombstones, s.search(fetch), base);
    PlacesJoin(before, hits);
    NamedJoin(segments, before, hits, i);
  }

  lemma HereInRange(segments: seq<Searchable>, n: nat, i: nat)
    requires InRange(segments, n) && i < |segments|
    ensures forall r :: r in segments[i].search(n) ==> r.docid < |segments[i].ids|
  {
  }

  lemma NoHits(segments: seq<Searchable>, tombstones: set<string>, fetch: nat)
    ensures Places([]) == Merged(Sizes(segments), Answers(segments, fetch), Lives(segments, tombstones), 0)
    ensures Named(segments, [])
  {
  }

  lemma PlacesJoin(a: seq<Hit>, b: seq<Hit>)
    ensures Places(a + b) == Places(a) + Places(b)
  {
  }

  lemma NamedJoin(segments: seq<Searchable>, a: seq<Hit>, b: seq<Hit>, i: nat)
    requires Named(segments, a) && i < |segments|
    requires forall h :: h in b ==> NamedIn(h, Base(Sizes(segments), i), segments[i].ids)
    ensures Named(segments, a + b)
  {
  }

  lemma AnswersInRange(segments: seq<Searchable>, matches: seq<set<Result>>, n: nat)
    requires AllAnswer(segments, matches) && 1 <= n
    ensures InRange(segments, n)
  {
    forall i, r | 0 <= i < |segments| && r in segments[i].search(n)
      ensures r.docid < |segments[i].ids|
    {
      assert Sound(segments[i], matches[i]);
    }
  }

  /** The first k of what was gathered, sorted by score, are the first k of all the live
      documents, if every segment is coverable. */
  lemma SearchIsExact(segments: seq<Searchable>, tombstones: set<string>, matches: seq<set<Result>>, k: nat)
    requires AllAnswer(segments, matches) && 1 <= k && InRange(segments, k + |tombstones|)
    requires forall i :: 0 <= i < |segments| ==> Coverable(segments[i].ids, tombstones)
    ensures var all := Sort(Gathered(segments, tombstones, k + |tombstones|, |segments|), HitScore);
      IsTopK(Places(FirstK(all, k)), Union(Sizes(segments), matches, Lives(segments, tombstones), |segments|), k)
  {
    hide IsTopK, Fits, Coverable, Fetched, Union, Merged, Gathered, Sort;
    var fetch := k + |tombstones|;
    var sizes, lives, answers := Sizes(segments), Lives(segments, tombstones), Answers(segments, fetch);
    forall i | 0 <= i < |segments|
      ensures Fetched(sizes[i], matches[i], lives[i], answers[i], k)
    {
      FetchedHere(segments[i], tombstones, matches[i], k);
    }
    MergeIsExact(sizes, matches, lives, answers, k);
    GatheredAre(segments, tombstones, fetch, |segments|);
    var gathered := Gathered(segments, tombstones, fetch, |segments|);
    SortPlaces(gathered);
    assert Places(FirstK(Sort(gathered, HitScore), k)) == FirstK(Places(Sort(gathered, HitScore)), k);
  }

  lemma FetchedHere(s: Searchable, tombstones: set<string>, all: set<Result>, k: nat)
    requires Fits(|s.ids|, all) && Sound(s, all) && 1 <= k && Coverable(s.ids, tombstones)
    ensures Fetched(|s.ids|, all, Untombed(s.ids, tombstones), s.search(k + |tombstones|), k)
  {
    hide IsTopK;
    var live := Untombed(s.ids, tombstones);
    assert IsTopK(s.search(k + |tombstones|), all, k + |tombstones|);
    if |Buried(s.ids, tombstones)| <= |tombstones| {
      assert DeadWithin(all, live, Buried(s.ids, tombstones));
    } else {
      assert NoneAlive(all, live);
    }
  }

  /** None of the hits is deleted. */
  ghost predicate Spared(tombstones: set<string>, hits: seq<Hit>)
  {
    forall h :: h in hits ==> h.id !in tombstones
  }

  lemma {:induction false} SurvivingSpared(ids: seq<string>, tombstones: set<string>, pairs: seq<Result>, base: nat)
    requires forall r :: r in pairs ==> r.docid < |ids|
    ensures Spared(tombstones, Surviving(ids, tombstones, pairs, base))
  {
    if pairs != [] {
      var n := |pairs| - 1;
      assert pairs[n] in pairs;
      SurvivingSpared(ids, tombstones, pairs[..n], base);
    }
  }

  lemma {:induction false} GatheredSpared(segments: seq<Searchable>, tombstones: set<string>, fetch: nat, n: nat)
    requires n <= |segments| && InRange(segments, fetch)
    ensures Spared(tombstones, Gathered(segments, tombstones, fetch, n))
  {
    hide Surviving, InRange, Sizes;
    if 0 < n {
      HereInRange(segments, fetch, n - 1);
      GatheredSpared(segments, tombstones, fetch, n - 1);
      SurvivingSpared(segments[n - 1].ids, tombstones, segments[n - 1].search(fetch), Base(Sizes(segments), n - 1));
    }
  }

  /** Hits in order of score, then segment, then docid, each a live match at its place. */
  ghost predicate LiveHits(segments: seq<Searchable>, tombstones: set<string>, matches: seq<set<Result>>,
                           hits: seq<Hit>)
    requires |segments| == |matches|
  {
    && Ranked(Places(hits)) && Spared(tombstones, hits)
    && forall h :: h in hits ==> h.place in Union(Sizes(segments), matches, Lives(segments, tombstones), |segments|)
  }

  /** Coverable or not, what is found is right. */
  lemma SearchIsSound(segments: seq<Searchable>, tombstones: set<string>, matches: seq<set<Result>>, k: nat)
    requires AllAnswer(segments, matches) && 1 <= k && InRange(segments, k + |tombstones|)
    ensures var all := Sort(Gathered(segments, tombstones, k + |tombstones|, |segments|), HitScore);
      LiveHits(segments, tombstones, matches, FirstK(all, k))
  {
    hide IsTopK, Fits, Union, Merged, Gathered, Sort, Ranked, TiesInOrder;
    var fetch := k + |tombstones|;
    var sizes, lives, answers := Sizes(segments), Lives(segments, tombstones), Answers(segments, fetch);
    forall i | 0 <= i < |segments|
      ensures FetchedSome(sizes[i], matches[i], answers[i])
    {
      AnswerSome(segments[i], matches[i], fetch);
    }
    MergedIsSound(sizes, matches, lives, answers, |segments|);
    GatheredAre(segments, tombstones, fetch, |segments|);
    GatheredSpared(segments, tombstones, fetch, |segments|);
    var gathered := Gathered(segments, tombstones, fetch, |segments|);
    SortPlaces(gathered);
    SortPermutes(gathered, HitScore);
    SortedByScore(Places(gathered));
    CutIsLive(segments, tombstones, matches, gathered, Sort(gathered, HitScore), k);
  }

  lemma AnswerSome(s: Searchable, all: set<Result>, n: nat)
    requires Fits(|s.ids|, all) && Sound(s, all) && 1 <= n
    ensures FetchedSome(|s.ids|, all, s.search(n))
  {
    assert IsTopK(s.search(n), all, n);
  }

  lemma CutIsLive(segments: seq<Searchable>, tombstones: set<string>, matches: seq<set<Result>>, hits: seq<Hit>,
                  sorted: seq<Hit>, k: nat)
    requires |segments| == |matches| && Spared(tombstones, hits) && multiset(hits) == multiset(sorted)
    requires Ranked(Places(sorted))
    requires forall r :: r in Places(hits) ==>
      r in Union(Sizes(segments), matches, Lives(segments, tombstones), |segments|)
    ensures LiveHits(segments, tombstones, matches, FirstK(sorted, k))
  {
    hide Union, Sizes, Lives;
    forall h | h in FirstK(sorted, k)
      ensures h in hits && h.place in Places(hits)
    {
      assert h in multiset(sorted);
      var i :| 0 <= i < |hits| && hits[i] == h;
      assert Places(hits)[i] == h.place;
    }
  }

  class SegmentSet {
    const segments: seq<Searchable>
    const tombstones: set<string>

    constructor (segments: seq<Searchable>, tombstones: set<string>)
      ensures this.segments == segments && this.tombstones == tombstones
    {
      this.segments, this.tombstones := segments, tombstones;
    }

    method Filter(s: Searchable, pairs: seq<Result>, base: nat) returns (hits: seq<Hit>)
      requires forall r :: r in pairs ==> r.docid < |s.ids|
      ensures hits == Surviving(s.ids, tombstones, pairs, base)
    {
      hits := [];
      for i := 0 to |pairs|
        invariant hits == Surviving(s.ids, tombstones, pairs[..i], base)
      {
        var r := pairs[i];
        assert pairs[..i + 1][..i] == pairs[..i];
        if s.ids[r.docid] !in tombstones {
          hits := hits + [Hit(s.ids[r.docid], Placed(base, r))];
        }
      }
      assert pairs[..|pairs|] == pairs;
    }

    method Gather(fetch: nat) returns (merged: seq<Hit>)
      requires InRange(segments, fetch)
      ensures merged == Gathered(segments, tombstones, fetch, |segments|)
    {
      hide Surviving, InRange, Sizes;
      merged := [];
      var base: nat := 0;
      for i := 0 to |segments|
        invariant base == Base(Sizes(segments), i)
        invariant merged == Gathered(segments, tombstones, fetch, i)
      {
        HereInRange(segments, fetch, i);
        var pairs := segments[i].search(fetch);
        var hits := Filter(segments[i], pairs, base);
        merged := merged + hits;
        base := base + |segments[i].ids|;
      }
    }

    /** The first k of all the live documents by score, then segment, then docid, if every
        segment is coverable. */
    method Search(k: nat, ghost matches: seq<set<Result>>) returns (out: seq<Hit>)
      requires 1 <= k && AllAnswer(segments, matches)
      ensures Named(segments, out) && LiveHits(segments, tombstones, matches, out) && |out| <= k
      ensures (forall i :: 0 <= i < |segments| ==> Coverable(segments[i].ids, tombstones)) ==>
        IsTopK(Places(out), Union(Sizes(segments), matches, Lives(segments, tombstones), |segments|), k)
    {
      hide IsTopK, AllAnswer, Coverable, Gathered, Sort, Named, Union, Places, InRange, FirstK, LiveHits;
      var overFetchK := k + |tombstones|;
      AnswersInRange(segments, matches, overFetchK);
      if segments == [] {
        NoSegments(matches, k);
        return [];
      }
      var merged := Gather(overFetchK);
      GatheredAre(segments, tombstones, overFetchK, |segments|);
      if forall i :: 0 <= i < |segments| ==> Coverable(segments[i].ids, tombstones) {
        SearchIsExact(segments, tombstones, matches, k);
      }
      SearchIsSound(segments, tombstones, matches, k);
      NamedCut(merged, k);
      out := FirstK(Sort(merged, HitScore), k);
    }

    lemma NamedCut(hits: seq<Hit>, k: nat)
      requires Named(segments, hits)
      ensures Named(segments, FirstK(Sort(hits, HitScore), k)) && |FirstK(Sort(hits, HitScore), k)| <= k
    {
      hide Sort, NamedIn;
      SortPermutes(hits, HitScore);
      var sorted := Sort(hits, HitScore);
      assert forall h :: h in FirstK(sorted, k) ==> h in sorted;
    }

    lemma NoSegments(matches: seq<set<Result>>, k: nat)
      requires segments == []  && AllAnswer(segments, matches)
      ensures Named(segments, []) && LiveHits(segments, tombstones, matches, [])
      ensures IsTopK(Places([]), Union(Sizes(segments), matches, Lives(segments, tombstones), 0), k)
    {
    }
  }
}
