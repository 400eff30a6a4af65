/** When asking each segment for as many more results as there are tombstones is enough:
    for a whole set of segments, and for a segment whatever is deleted. */
module OverFetch {
  import opened Common
  import opened Ranking
  import opened StableSort
  import opened FanOut
  import opened SegmentSet

  // ---- a set of segments ----

  ghost predicate HaveIds(segments: seq<Searchable>, ids: seq<seq<string>>)
  {
    |segments| == |ids| && forall i :: 0 <= i < |ids| ==> segments[i].ids == ids[i]
  }

  /** What the search of a set returns is the first k of the live union. */
  ghost predicate SetExact(segments: seq<Searchable>, tombstones: set<string>, matches: seq<set<Result>>, k: nat)
    requires |matches| == |segments|
  {
    var fetch := k + |tombstones|;
    && InRange(segments, fetch)
    && IsTopK(Places(FirstK(Sort(Gathered(segments, tombstones, fetch, |segments|), HitScore), k)),
              Union(Sizes(segments), matches, Lives(segments, tombstones), |segments|), k)
  }

  /** Whatever the documents' texts and the query. */
  ghost predicate SetAlwaysExact(ids: seq<seq<string>>, tombstones: set<string>)
  {
    forall segments: seq<Searchable>, matches: seq<set<Result>>, k: nat ::
      HaveIds(segments, ids) && AllAnswer(segments, matches) && 1 <= k ==> SetExact(segments, tombstones, matches, k)
  }

  lemma {:induction false} UnionHas(sizes: seq<nat>, matches: seq<set<Result>>, lives: seq<nat -> bool>, n: nat,
                                    i: nat, r: Result)
    requires i < n <= |sizes| == |matches| == |lives| && r in matches[i] && lives[i](r.docid)
    ensures Placed(Base(sizes, i), r) in Union(sizes, matches, lives, n)
  {
    if i < n - 1 {
      UnionHas(sizes, matches, lives, n - 1, i, r);
    }
  }

  lemma {:induction false} NothingGathered(segments: seq<Searchable>, tombstones: set<string>, fetch: nat, n: nat)
    requires n <= |segments| && InRange(segments, fetch)
    requires forall i, r :: 0 <= i < n && r in segments[i].search(fetch) ==> segments[i].ids[r.docid] in tombstones
    ensures Gathered(segments, tombstones, fetch, n) == []
  {
    hide Surviving;
    if 0 < n {
      NothingGathered(segments, tombstones, fetch, n - 1);
      NothingSurvives(segments[n - 1].ids, tombstones, segments[n - 1].search(fetch), Base(Sizes(segments), n - 1));
    }
  }

  lemma {:induction false} NothingSurvives(ids: seq<string>, tombstones: set<string>, pairs: seq<Result>, base: nat)
    requires forall r :: r in pairs ==> r.docid < |ids| && ids[r.docid] in tombstones
    ensures Surviving(ids, tombstones, pairs, base) == []
  {
    if pairs != [] {
      assert pairs[|pairs| - 1] in pairs;
      NothingSurvives(ids, tombstones, pairs[..|pairs| - 1], base);
    }
  }

  /** Segments of which only one has any match, the ones that make it lose. */
  ghost function OneMatching(ids: seq<seq<string>>, i: nat, all: set<Result>): (segments: seq<Searchable>)
    requires i < |ids|
    ensures HaveIds(segments, ids)
    ensures forall j, n: nat :: 0 <= j < |ids| ==> segments[j].search(n) == if j == i then Best(all, n) else []
  {
    seq(|ids|, j requires 0 <= j < |ids| =>
      Searchable(ids[j], if j == i then (n: nat) => Best(all, n) else (n: nat) => []))
  }

  ghost function OnlyAt(n: nat, i: nat, all: set<Result>): (matches: seq<set<Result>>)
    ensures |matches| == n && forall j :: 0 <= j < n ==> matches[j] == if j == i then all else {}
  {
    seq(n, j => if j == i then all else {})
  }

  lemma OneAnswers(ids: seq<seq<string>>, i: nat, all: set<Result>)
    requires i < |ids| && Fits(|ids[i]|, all)
    ensures AllAnswer(OneMatching(ids, i, all), OnlyAt(|ids|, i, all))
  {
    hide IsTopK;
    var segments, matches := OneMatching(ids, i, all), OnlyAt(|ids|, i, all);
    forall j | 0 <= j < |ids|
      ensures Fits(|segments[j].ids|, matches[j]) && Sound(segments[j], matches[j])
    {
      if j != i {
        NoneIsTopK();
      }
    }
  }

  lemma NoneIsTopK()
    ensures forall n: nat :: IsTopK([], {}, n)
  {
  }

  lemma LosingFits(ids: seq<string>, tombstones: set<string>, alive: nat, high: Score, low: Score)
    requires alive < |ids| && ids[alive] !in tombstones
    ensures Fits(|ids|, Losing(ids, tombstones, alive, high, low))
    ensures Result(alive, low) in Losing(ids, tombstones, alive, high, low)
  {
  }

  /** A set loses a live result where all that its segments give back is deleted. */
  lemma NothingFound(segments: seq<Searchable>, tombstones: set<string>, matches: seq<set<Result>>, i: nat, r: Result)
    requires AllAnswer(segments, matches) && i < |segments| && r in matches[i]
    requires r.docid < |segments[i].ids| && segments[i].ids[r.docid] !in tombstones
    requires InRange(segments, 1 + |tombstones|)
    requires forall j, s :: 0 <= j < |segments| && s in segments[j].search(1 + |tombstones|) ==>
      segments[j].ids[s.docid] in tombstones
    ensures !SetExact(segments, tombstones, matches, 1)
  {
    hide IsTopK, Fits, Gathered, Union, Sort, InRange;
    NothingGathered(segments, tombstones, 1 + |tombstones|, |segments|);
    UnionHas(Sizes(segments), matches, Lives(segments, tombstones), |segments|, i, r);
    EmptyLoses(Union(Sizes(segments), matches, Lives(segments, tombstones), |segments|),
               Placed(Base(Sizes(segments), i), r));
  }

  lemma SetLoses(ids: seq<seq<string>>, tombstones: set<string>, i: nat)
    requires i < |ids| && !Coverable(ids[i], tombstones)
    ensures !SetAlwaysExact(ids, tombstones)
  {
    var alive: nat :| alive < |ids[i]| && ids[i][alive] !in tombstones;
    hide IsTopK, Fits, Losing, OneMatching, OnlyAt, AllAnswer, InRange, SetExact;
    var all := Losing(ids[i], tombstones, alive, 2.0, 1.0);
    var segments, matches := OneMatching(ids, i, all), OnlyAt(|ids|, i, all);
    LosingFits(ids[i], tombstones, alive, 2.0, 1.0);
    OneAnswers(ids, i, all);
    OnlyDeadFetched(ids[i], tombstones, alive, 2.0, 1.0);
    AnswersInRange(segments, matches, 1 + |tombstones|);
    NothingFound(segments, tombstones, matches, i, Result(alive, 1.0));
  }

  lemma EmptyLoses(all: set<Result>, r: Result)
    requires r in all
    ensures !IsTopK(Places(FirstK(Sort([], HitScore), 1)), all, 1)
  {
  }

  lemma OnlyDeadFetched(ids: seq<string>, tombstones: set<string>, alive: nat, high: Score, low: Score)
    requires |tombstones| < |Buried(ids, tombstones)| && alive < |ids| && ids[alive] !in tombstones && low < high
    ensures forall r :: r in Best(Losing(ids, tombstones, alive, high, low), 1 + |tombstones|) ==>
      r.docid < |ids| && ids[r.docid] in tombstones
  {
    var rs := Best(Losing(ids, tombstones, alive, high, low), 1 + |tombstones|);
    LastNotFetched(ids, tombstones, alive, high, low, rs);
  }

  /** A set of segments is searched exactly, on every query its documents can meet, exactly
      when each of its segments is coverable. */
  lemma SetExactness(ids: seq<seq<string>>, tombstones: set<string>)
    ensures SetAlwaysExact(ids, tombstones) <==> forall i :: 0 <= i < |ids| ==> Coverable(ids[i], tombstones)
  {
    hide IsTopK, Coverable, Gathered, Union, Sort, SetExact;
    if forall i :: 0 <= i < |ids| ==> Coverable(ids[i], tombstones) {
      forall segments: seq<Searchable>, matches: seq<set<Result>>, k: nat
        | HaveIds(segments, ids) && AllAnswer(segments, matches) && 1 <= k
        ensures |matches| == |segments| && SetExact(segments, tombstones, matches, k)
      {
        CoverableSet(segments, tombstones, matches, k);
      }
    } else {
      var i :| 0 <= i < |ids| && !Coverable(ids[i], tombstones);
      SetLoses(ids, tombstones, i);
    }
  }

  lemma CoverableSet(segments: seq<Searchable>, tombstones: set<string>, matches: seq<set<Result>>, k: nat)
    requires AllAnswer(segments, matches) && 1 <= k
    requires forall i :: 0 <= i < |segments| ==> Coverable(segments[i].ids, tombstones)
    ensures SetExact(segments, tombstones, matches, k)
  {
    hide IsTopK, Coverable, Gathered, Union, Sort;
    AnswersInRange(segments, matches, k + |tombstones|);
    SearchIsExact(segments, tombstones, matches, k);
  }

  // ---- a segment, whatever is deleted ----

  ghost predicate NoIdTwice(ids: seq<string>)
  {
    forall i, j :: 0 <= i < j < |ids| ==> ids[i] != ids[j]
  }

  ghost predicate OneIdOnly(ids: seq<string>)
  {
    forall i, j :: 0 <= i < j < |ids| ==> ids[i] == ids[j]
  }

  /** Coverable whatever is deleted: exactly when no id stands twice in the segment, or the
      segment has one id only. */
  lemma CoverableAlways(ids: seq<string>)
    ensures (forall tombstones :: Coverable(ids, tombstones)) <==> NoIdTwice(ids) || OneIdOnly(ids)
  {
    if NoIdTwice(ids) {
      forall tombstones
        ensures Coverable(ids, tombstones)
      {
        DistinctIdsCover(ids, tombstones);
      }
    } else if OneIdOnly(ids) {
      forall tombstones
        ensures Coverable(ids, tombstones)
      {
        OneIdCovers(ids, tombstones);
      }
    } else {
      var i: nat, j: nat :| i < j < |ids| && ids[i] == ids[j];
      var m: nat :| m < |ids| && ids[m] != ids[i];
      assert {i, j} <= Buried(ids, {ids[i]});
      SubsetSize({i, j}, Buried(ids, {ids[i]}));
      assert !Coverable(ids, {ids[i]});
    }
  }

  lemma OneIdCovers(ids: seq<string>, tombstones: set<string>)
    requires OneIdOnly(ids)
    ensures Coverable(ids, tombstones)
  {
    if d: nat :| d < |ids| && ids[d] !in tombstones {
      assert Buried(ids, tombstones) == {};
    }
  }
}
