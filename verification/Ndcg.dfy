/** Normalized discounted cumulative gain, and why it is between 0 and 1. */
module Ndcg {
  import opened Corpus
  import opened StableSort

  /** Python dictionaries, in insertion order: relevance judgments of one query, and the
      scores a run gives its documents. */
  type Judgments = seq<(string, int)>

  type DocScores = seq<(string, real)>

  ghost predicate DistinctKeys<T>(d: seq<(string, T)>)
  {
    forall i, j :: 0 <= i < j < |d| ==> d[i].0 != d[j].0
  }

  ghost predicate Distinct(docs: seq<string>)
  {
    forall i, j :: 0 <= i < j < |docs| ==> docs[i] != docs[j]
  }

  /** The weight of a rank, 1 / log2(rank + 1), ranks from 1: all that matters of it is
      that it is positive and does not grow. */
  ghost predicate IsDiscount(discount: nat -> real)
  {
    && (forall r: nat :: 1 <= r ==> 0.0 < discount(r))
    && forall r: nat, s: nat :: 1 <= r <= s ==> discount(s) <= discount(r)
  }

  // ---- gains ----

  /** A document's judgment, 0 if it has none. */
  function Judged(judged: Judgments, doc: string): int
  {
    if judged == [] then 0 else if judged[0].0 == doc then judged[0].1 else Judged(judged[1..], doc)
  }

  /** What a document contributes: its judgment if positive. */
  function Gain(judged: Judgments, doc: string): (gain: nat)
  {
    if Judged(judged, doc) > 0 then Judged(judged, doc) else 0
  }

  function Gains(judged: Judgments, docs: seq<string>): (gains: seq<nat>)
    ensures |gains| == |docs| && forall i :: 0 <= i < |docs| ==> gains[i] == Gain(judged, docs[i])
  {
    seq(|docs|, i requires 0 <= i < |docs| => Gain(judged, docs[i]))
  }

  function Positive(judged: Judgments): seq<nat>
  {
    if judged == [] then []
    else if judged[0].1 > 0 then [judged[0].1] + Positive(judged[1..])
    else Positive(judged[1..])
  }

  function Negated(v: nat): real { 0.0 - v as real }

  /** The positive judgments, highest first. */
  function Ideal(judged: Judgments): seq<nat>
  {
    Sort(Positive(judged), Negated)
  }

  /** Zero past the end. */
  function At(s: seq<nat>, i: nat): nat
  {
    if i < |s| then s[i] else 0
  }

  /** The sum of the first m. */
  function FirstSum(s: seq<nat>, m: nat): nat
  {
    if m == 0 then 0 else FirstSum(s, m - 1) + At(s, m - 1)
  }

  /** The discounted sum of the first m. */
  function DiscountedSum(s: seq<nat>, discount: nat -> real, m: nat): real
  {
    if m == 0 then 0.0 else DiscountedSum(s, discount, m - 1) + At(s, m - 1) as real * discount(m)
  }

  // ---- the ranking ----

  /** trec_eval's order: higher score first, the larger docid first among equal scores. */
  predicate RanksBefore(a: (string, real), b: (string, real))
  {
    a.1 > b.1 || (a.1 == b.1 && TermLess(b.0, a.0))
  }

  function InsertRanked(x: (string, real), s: DocScores): (r: DocScores)
    ensures |r| == |s| + 1
  {
    if s != [] && RanksBefore(s[0], x) then [s[0]] + InsertRanked(x, s[1..]) else [x] + s
  }

  function SortRanked(s: DocScores): (r: DocScores)
    ensures |r| == |s|
  {
    if s == [] then [] else InsertRanked(s[0], SortRanked(s[1..]))
  }

  function RankedDocids(scores: DocScores): (docs: seq<string>)
    ensures |docs| == |scores|
    ensures forall i :: 0 <= i < |docs| ==> docs[i] == SortRanked(scores)[i].0
  {
    var ranked := SortRanked(scores);
    seq(|ranked|, i requires 0 <= i < |ranked| => ranked[i].0)
  }

  lemma {:induction false} InsertRankedMembers(x: (string, real), s: DocScores)
    ensures forall y :: y in InsertRanked(x, s) <==> y == x || y in s
  {
    if s != [] && RanksBefore(s[0], x) {
      InsertRankedMembers(x, s[1..]);
      assert s == [s[0]] + s[1..];
    }
  }

  ghost predicate InRankOrder(s: DocScores)
  {
    forall i, j :: 0 <= i < j < |s| ==> RanksBefore(s[i], s[j])
  }

  lemma RanksTransitive(a: (string, real), b: (string, real), c: (string, real))
    requires RanksBefore(a, b) && RanksBefore(b, c)
    ensures RanksBefore(a, c)
  {
    if a.1 == b.1 == c.1 {
      TermLessTransitive(c.0, b.0, a.0);
    }
  }

  lemma {:induction false} InsertRankedOrder(x: (string, real), s: DocScores)
    requires InRankOrder(s) && forall y :: y in s ==> y.0 != x.0
    ensures InRankOrder(InsertRanked(x, s))
  {
    var t := InsertRanked(x, s);
    if s != [] && RanksBefore(s[0], x) {
      InsertRankedOrder(x, s[1..]);
      InsertRankedMembers(x, s[1..]);
      var rest := InsertRanked(x, s[1..]);
      forall i | 0 <= i < |rest|
        ensures RanksBefore(s[0], rest[i])
      {
        assert rest[i] in rest;
        if rest[i] != x {
          var j :| 0 <= j < |s[1..]| && s[1..][j] == rest[i];
          assert RanksBefore(s[0], s[j + 1]);
        }
      }
    } else if s != [] {
      TermLessTotal(s[0].0, x.0);
      assert s[0] in s;
      assert RanksBefore(x, s[0]);
      forall i | 0 < i < |s|
        ensures RanksBefore(x, s[i])
      {
        RanksTransitive(x, s[0], s[i]);
      }
    }
  }

  /** The ranking has the run's documents, each once, in trec_eval's order. */
  lemma {:induction false} RankingIsRight(scores: DocScores)
    requires DistinctKeys(scores)
    ensures InRankOrder(SortRanked(scores))
    ensures forall y :: y in SortRanked(scores) <==> y in scores
  {
    if scores != [] {
      RankingIsRight(scores[1..]);
      var rest := SortRanked(scores[1..]);
      InsertRankedMembers(scores[0], rest);
      assert scores == [scores[0]] + scores[1..];
      forall y | y in rest
        ensures y.0 != scores[0].0
      {
        assert y in scores[1..];
        var j :| 0 <= j < |scores[1..]| && scores[1..][j] == y;
        assert scores[j + 1] == y;
      }
      InsertRankedOrder(scores[0], rest);
    }
  }

  lemma RankedDistinct(scores: DocScores)
    requires DistinctKeys(scores)
    ensures Distinct(RankedDocids(scores))
  {
    var s := SortRanked(scores);
    RankingIsRight(scores);
    RankOrderDistinct(s);
    forall i, j | 0 <= i < j < |s|
      ensures s[i].0 != s[j].0
    {
      assert s[i] in s && s[j] in s;
      var p :| 0 <= p < |scores| && scores[p] == s[i];
      var q :| 0 <= q < |scores| && scores[q] == s[j];
    }
  }

  lemma RankOrderDistinct(s: DocScores)
    requires InRankOrder(s)
    ensures forall i, j :: 0 <= i < j < |s| ==> s[i] != s[j]
  {
    forall i, j | 0 <= i < j < |s|
      ensures s[i] != s[j]
    {
      TermLessIrreflexive(s[i].0);
      assert RanksBefore(s[i], s[j]);
    }
  }

  // ---- the highest judgments first sum highest ----

  ghost predicate Falling(s: seq<nat>)
  {
    forall i, j :: 0 <= i < j < |s| ==> s[i] >= s[j]
  }

  lemma {:induction false} FirstSumCons(x: nat, s: seq<nat>, m: nat)
    ensures FirstSum([x] + s, m + 1) == x + FirstSum(s, m)
  {
    if 0 < m {
      FirstSumCons(x, s, m - 1);
      assert At([x] + s, m) == At(s, m - 1);
    }
  }

  /** Where an insertion happens: in front, or further on. */
  lemma InsertWhere(v: nat, s: seq<nat>, m: nat)
    requires 1 <= m
    ensures s == [] || s[0] <= v ==> FirstSum(Insert(v, s, Negated), m) == v + FirstSum(s, m - 1)
    ensures s != [] && v < s[0] ==>
      FirstSum(Insert(v, s, Negated), m) == s[0] + FirstSum(Insert(v, s[1..], Negated), m - 1)
    ensures s != [] ==> FirstSum(s, m) == s[0] + FirstSum(s[1..], m - 1)
  {
    if s != [] {
      assert s == [s[0]] + s[1..];
      FirstSumCons(s[0], s[1..], m - 1);
      FirstSumCons(s[0], Insert(v, s[1..], Negated), m - 1);
    }
    if s == [] || s[0] <= v {
      assert Insert(v, s, Negated) == [v] + s;
      FirstSumCons(v, s, m - 1);
    }
  }

  /** Inserting a value raises the sum of the first m at least by it, over the sum of the
      first m - 1 before. */
  lemma {:induction false} InsertRaises(v: nat, s: seq<nat>, m: nat)
    requires 1 <= m
    ensures FirstSum(Insert(v, s, Negated), m) >= v + FirstSum(s, m - 1)
  {
    hide Insert;
    InsertWhere(v, s, m);
    if s != [] && v < s[0] && 1 < m {
      InsertRaises(v, s[1..], m - 1);
      InsertWhere(v, s, m - 1);
    }
  }

  /** And the sum of the first m is one of the two ways to make it up. */
  lemma {:induction false} InsertSums(v: nat, s: seq<nat>, m: nat)
    requires Falling(s)
    ensures FirstSum(Insert(v, s, Negated), m) >= FirstSum(s, m)
    ensures FirstSum(Insert(v, s, Negated), m) == FirstSum(s, m) ||
            (1 <= m && FirstSum(Insert(v, s, Negated), m) == v + FirstSum(s, m - 1))
  {
    hide Insert;
    if 1 <= m {
      InsertWhere(v, s, m);
      if s != [] && v < s[0] {
        InsertSums(v, s[1..], m - 1);
        if 1 < m {
          InsertWhere(v, s, m - 1);
        }
      }
    }
  }

  lemma IdealFalls(judged: Judgments)
    ensures Falling(Ideal(judged))
  {
    SortAscends(Positive(judged), Negated);
    var s := Ideal(judged);
    forall i, j | 0 <= i < j < |s|
      ensures s[i] >= s[j]
    {
      assert Negated(s[i]) <= Negated(s[j]);
    }
  }

  // ---- any ranking gains at most the ideal ----

  function Without(docs: seq<string>, p: nat): seq<string>
    requires p < |docs|
  {
    docs[..p] + docs[p + 1..]
  }

  lemma {:induction false} NotJudged(judged: Judgments, doc: string)
    requires forall i :: 0 <= i < |judged| ==> judged[i].0 != doc
    ensures Judged(judged, doc) == 0
  {
    if judged != [] {
      NotJudged(judged[1..], doc);
    }
  }

  /** Gains of documents other than the first judged one do not depend on it. */
  lemma {:induction false} FirstSumSame(judged: Judgments, docs: seq<string>, m: nat)
    requires judged != [] && forall i :: 0 <= i < m && i < |docs| ==> docs[i] != judged[0].0
    ensures FirstSum(Gains(judged, docs), m) == FirstSum(Gains(judged[1..], docs), m)
  {
    if 0 < m {
      FirstSumSame(judged, docs, m - 1);
    }
  }

  /** Taking the document at p out of a ranking. */
  lemma {:induction false} FirstSumWithout(judged: Judgments, docs: seq<string>, p: nat, m: nat)
    requires p < |docs|
    ensures m <= p ==> FirstSum(Gains(judged, docs), m) == FirstSum(Gains(judged, Without(docs, p)), m)
    ensures p < m ==>
      FirstSum(Gains(judged, docs), m) == FirstSum(Gains(judged, Without(docs, p)), m - 1) + Gain(judged, docs[p])
  {
    hide Gain, Gains, Without, FirstSum, At;
    FirstSumSteps(Gains(judged, docs), m);
    FirstSumSteps(Gains(judged, Without(docs, p)), m);
    if 0 < m {
      FirstSumWithout(judged, docs, p, m - 1);
      FirstSumSteps(Gains(judged, Without(docs, p)), m - 1);
      GainsWithout(judged, docs, p, m - 1);
    }
  }

  lemma GainsWithout(judged: Judgments, docs: seq<string>, p: nat, i: nat)
    requires p < |docs|
    ensures i < p ==> At(Gains(judged, docs), i) == At(Gains(judged, Without(docs, p)), i)
    ensures i == p ==> At(Gains(judged, docs), i) == Gain(judged, docs[p])
    ensures p < i ==> At(Gains(judged, docs), i) == At(Gains(judged, Without(docs, p)), i - 1)
  {
    hide Gain;
    WithoutAt(docs, p);
  }

  lemma WithoutAt(docs: seq<string>, p: nat)
    requires p < |docs|
    ensures |Without(docs, p)| == |docs| - 1
    ensures forall i :: 0 <= i < p ==> Without(docs, p)[i] == docs[i]
    ensures forall i :: p < i < |docs| ==> Without(docs, p)[i - 1] == docs[i]
    ensures forall i :: 0 <= i < |docs| - 1 ==> Without(docs, p)[i] == docs[if i < p then i else i + 1]
  {
  }

  lemma TakeOut(judged: Judgments, docs: seq<string>, p: nat, m: nat)
    requires DistinctKeys(judged) && Distinct(docs) && judged != [] && p < |docs| && docs[p] == judged[0].0
    ensures m <= p ==> FirstSum(Gains(judged, docs), m) == FirstSum(Gains(judged[1..], Without(docs, p)), m)
    ensures p < m ==>
      FirstSum(Gains(judged, docs), m) ==
      FirstSum(Gains(judged[1..], Without(docs, p)), m - 1) + if judged[0].1 > 0 then judged[0].1 else 0
  {
    FirstSumWithout(judged, docs, p, m);
    WithoutAt(docs, p);
    FirstSumSame(judged, Without(docs, p), if m <= p then m else m - 1);
  }

  lemma WithoutDistinct(docs: seq<string>, p: nat)
    requires Distinct(docs) && p < |docs|
    ensures Distinct(Without(docs, p))
  {
    WithoutAt(docs, p);
  }

  /** The first m documents of any ranking gain no more together than the m highest
      judgments. */
  lemma {:induction false} PrefixBounded(judged: Judgments, docs: seq<string>, m: nat)
    requires DistinctKeys(judged) && Distinct(docs)
    ensures FirstSum(Gains(judged, docs), m) <= FirstSum(Ideal(judged), m)
    decreases |judged|
  {
    hide Distinct, DistinctKeys, Falling, Gains, Insert, Without;
    if judged == [] {
      NoGains(docs, m);
    } else {
      var rest, v := judged[1..], judged[0].1;
      IdealFalls(rest);
      RestDistinct(judged);
      if v > 0 {
        InsertSums(v, Ideal(rest), m);
      }
      if exists p :: 0 <= p < m && p < |docs| && docs[p] == judged[0].0 {
        var p :| 0 <= p < m && p < |docs| && docs[p] == judged[0].0;
        TakeOut(judged, docs, p, m);
        WithoutDistinct(docs, p);
        PrefixBounded(rest, Without(docs, p), m - 1);
        PrefixBounded(rest, Without(docs, p), m);
        if v > 0 {
          InsertRaises(v, Ideal(rest), m);
        } else {
          FirstSumGrows(Ideal(rest), m);
        }
      } else {
        FirstSumSame(judged, docs, m);
        PrefixBounded(rest, docs, m);
      }
    }
  }

  lemma FirstSumGrows(s: seq<nat>, m: nat)
    requires 1 <= m
    ensures FirstSum(s, m - 1) <= FirstSum(s, m)
  {
  }

  lemma RestDistinct(judged: Judgments)
    requires DistinctKeys(judged) && judged != []
    ensures DistinctKeys(judged[1..])
  {
  }

  lemma {:induction false} NoGains(docs: seq<string>, m: nat)
    ensures FirstSum(Gains([], docs), m) == 0
  {
    if 0 < m {
      NoGains(docs, m - 1);
    }
  }

  // ---- a ranking by judgment gains as much as the ideal ----

  /** The ranking has every positively judged document, and gains fall along it. */
  ghost predicate ByJudgment(judged: Judgments, docs: seq<string>)
  {
    && Falling(Gains(judged, docs))
    && forall j :: 0 <= j < |judged| && judged[j].1 > 0 ==> judged[j].0 in docs
  }

  lemma ByJudgmentRest(judged: Judgments, docs: seq<string>, p: nat)
    requires DistinctKeys(judged) && Distinct(docs) && judged != [] && ByJudgment(judged, docs)
    requires p < |docs| && docs[p] == judged[0].0
    ensures ByJudgment(judged[1..], Without(docs, p))
  {
    var rest, others := judged[1..], Without(docs, p);
    WithoutAt(docs, p);
    forall i | 0 <= i < |others|
      ensures Gain(rest, others[i]) == Gain(judged, docs[if i < p then i else i + 1])
    {
      assert others[i] != judged[0].0;
    }
    forall i, j | 0 <= i < j < |others|
      ensures Gains(rest, others)[i] >= Gains(rest, others)[j]
    {
      var a, b := if i < p then i else i + 1, if j < p then j else j + 1;
      assert Gains(judged, docs)[a] >= Gains(judged, docs)[b];
    }
    forall j | 0 <= j < |rest| && rest[j].1 > 0
      ensures rest[j].0 in others
    {
      StillThere(judged, docs, p, j);
    }
  }

  lemma StillThere(judged: Judgments, docs: seq<string>, p: nat, j: nat)
    requires DistinctKeys(judged) && judged != [] && p < |docs| && docs[p] == judged[0].0
    requires j < |judged| - 1 && judged[j + 1].0 in docs
    ensures judged[1..][j].0 in Without(docs, p)
  {
    WithoutAt(docs, p);
    var others := Without(docs, p);
    var i :| 0 <= i < |docs| && docs[i] == judged[j + 1].0;
    assert i < p ==> others[i] == docs[i];
    assert p < i ==> others[i - 1] == docs[i];
  }

  /** A judgment that is not positive can be forgotten. */
  lemma ByJudgmentForget(judged: Judgments, docs: seq<string>)
    requires DistinctKeys(judged) && judged != [] && ByJudgment(judged, docs) && judged[0].1 <= 0
    ensures Gains(judged[1..], docs) == Gains(judged, docs) && ByJudgment(judged[1..], docs)
  {
    var rest := judged[1..];
    NotJudged(rest, judged[0].0);
    forall i | 0 <= i < |docs|
      ensures Gain(rest, docs[i]) == Gain(judged, docs[i])
    {
    }
    assert Gains(rest, docs) == Gains(judged, docs);
    forall j | 0 <= j < |rest| && rest[j].1 > 0
      ensures rest[j].0 in docs
    {
      assert rest[j] == judged[j + 1];
    }
  }

  /** Gains around the place of the first judged document. */
  lemma GainsAround(judged: Judgments, docs: seq<string>, p: nat, m: nat)
    requires DistinctKeys(judged) && Distinct(docs) && judged != [] && ByJudgment(judged, docs) && judged[0].1 > 0
    requires p < |docs| && docs[p] == judged[0].0 && 1 <= m
    ensures m <= p ==> judged[0].1 <= At(Gains(judged, docs), m - 1)
    ensures p < m ==> At(Gains(judged[1..], Without(docs, p)), m - 1) <= judged[0].1
  {
    var gains := Gains(judged, docs);
    WithoutAt(docs, p);
    assert gains[p] == judged[0].1;
    if p < m < |docs| {
      assert Without(docs, p)[m - 1] == docs[m] && docs[m] != judged[0].0;
      assert gains[m] <= gains[p];
    }
  }

  lemma {:induction false} PrefixReached(judged: Judgments, docs: seq<string>, m: nat)
    requires DistinctKeys(judged) && Distinct(docs) && ByJudgment(judged, docs)
    ensures FirstSum(Ideal(judged), m) <= FirstSum(Gains(judged, docs), m)
    decreases |judged|, m
  {
    hide Distinct, DistinctKeys, Falling, Gains, Insert, Without, ByJudgment;
    if judged == [] {
      NothingIdeal(m);
    } else if judged[0].1 <= 0 {
      RestDistinct(judged);
      ByJudgmentForget(judged, docs);
      PrefixReached(judged[1..], docs, m);
    } else if 0 < m {
      var rest, v := judged[1..], judged[0].1;
      var p := PlaceOfFirst(judged, docs);
      IdealFalls(rest);
      RestDistinct(judged);
      WithoutDistinct(docs, p);
      ByJudgmentRest(judged, docs, p);
      InsertSums(v, Ideal(rest), m);
      PrefixReached(rest, Without(docs, p), m);
      PrefixReached(rest, Without(docs, p), m - 1);
      TakeOut(judged, docs, p, m);
      TakeOut(judged, docs, p, m - 1);
      GainsAround(judged, docs, p, m);
    }
  }

  lemma PlaceOfFirst(judged: Judgments, docs: seq<string>) returns (p: nat)
    requires judged != [] && judged[0].1 > 0 && ByJudgment(judged, docs)
    ensures p < |docs| && docs[p] == judged[0].0
  {
    p :| p < |docs| && docs[p] == judged[0].0;
  }

  lemma {:induction false} NothingIdeal(m: nat)
    ensures FirstSum(Ideal([]), m) == 0
  {
    if 0 < m {
      NothingIdeal(m - 1);
    }
  }

  // ---- from sums to discounted sums ----

  /** The rearrangement step: where the prefixes of one sequence never sum to more than
      the other's, neither do they when discounted. */
  lemma {:induction false} DiscountedBounded(a: seq<nat>, b: seq<nat>, discount: nat -> real, m: nat)
    requires IsDiscount(discount) && forall n: nat :: n <= m ==> FirstSum(a, n) <= FirstSum(b, n)
    ensures 0 < m ==>
      DiscountedSum(b, discount, m) - DiscountedSum(a, discount, m) >=
      (FirstSum(b, m) - FirstSum(a, m)) as real * discount(m)
    ensures DiscountedSum(a, discount, m) <= DiscountedSum(b, discount, m)
  {
    hide FirstSum, At;
    FirstSumSteps(a, m);
    FirstSumSteps(b, m);
    if 0 < m {
      DiscountedBounded(a, b, discount, m - 1);
      assert FirstSum(a, m - 1) <= FirstSum(b, m - 1) && FirstSum(a, m) <= FirstSum(b, m);
      var lead := (FirstSum(b, m - 1) - FirstSum(a, m - 1)) as real;
      var ahead := DiscountedSum(b, discount, m - 1) - DiscountedSum(a, discount, m - 1);
      var x, y := At(a, m - 1) as real, At(b, m - 1) as real;
      if m == 1 {
        StillAhead(0.0, 0.0, x, y, discount(1), discount(1));
      } else {
        assert discount(m) <= discount(m - 1);
        StillAhead(ahead, lead, x, y, discount(m - 1), discount(m));
      }
      assert (FirstSum(b, m) - FirstSum(a, m)) as real == lead + y - x;
    }
  }

  lemma FirstSumSteps(s: seq<nat>, m: nat)
    ensures FirstSum(s, 0) == 0
    ensures 0 < m ==> FirstSum(s, m) == FirstSum(s, m - 1) + At(s, m - 1)
  {
  }

  lemma StillAhead(ahead: real, lead: real, x: real, y: real, before: real, d: real)
    requires 0.0 <= lead && d <= before && lead * before <= ahead
    ensures (lead + y - x) * d <= ahead + y * d - x * d
  {
  }

  // ---- the metric ----

  function NdcgOf(judged: Judgments, docs: seq<string>, discount: nat -> real, k: nat): real
  {
    var ideal := DiscountedSum(Ideal(judged), discount, k);
    if ideal == 0.0 then 0.0 else DiscountedSum(Gains(judged, docs), discount, k) / ideal
  }

  lemma {:induction false} SumNonNegative(s: seq<nat>, discount: nat -> real, m: nat)
    requires IsDiscount(discount)
    ensures 0.0 <= DiscountedSum(s, discount, m)
    ensures 0 < m && s != [] && 0 < s[0] ==> 0.0 < DiscountedSum(s, discount, m)
  {
    if 0 < m {
      SumNonNegative(s, discount, m - 1);
      var x, d := At(s, m - 1) as real, discount(m);
      Product(x, d);
      assert DiscountedSum(s, discount, m) == DiscountedSum(s, discount, m - 1) + x * d;
      assert m == 1 && s != [] && 0 < s[0] ==> 0.0 < x;
    }
  }

  lemma Product(x: real, d: real)
    requires 0.0 <= x && 0.0 < d
    ensures 0.0 <= x * d && (0.0 < x ==> 0.0 < x * d)
  {
  }

  /** For every query, run and cut-off, NDCG is between 0 and 1. */
  lemma NdcgInRange(judged: Judgments, docs: seq<string>, discount: nat -> real, k: nat)
    requires DistinctKeys(judged) && Distinct(docs) && IsDiscount(discount)
    ensures 0.0 <= NdcgOf(judged, docs, discount, k) <= 1.0
  {
    hide Ideal, Gains, DiscountedSum, FirstSum, Distinct, DistinctKeys, IsDiscount;
    forall n: nat | n <= k
      ensures FirstSum(Gains(judged, docs), n) <= FirstSum(Ideal(judged), n)
    {
      PrefixBounded(judged, docs, n);
    }
    DiscountedBounded(Gains(judged, docs), Ideal(judged), discount, k);
    SumNonNegative(Gains(judged, docs), discount, k);
    SumNonNegative(Ideal(judged), discount, k);
    Share(DiscountedSum(Gains(judged, docs), discount, k), DiscountedSum(Ideal(judged), discount, k));
  }

  lemma Share(x: real, y: real)
    requires 0.0 <= x <= y
    ensures 0.0 < y ==> 0.0 <= x / y <= 1.0
  {
    if 0.0 < y {
      var q := x / y;
      assert q * y == x;
    }
  }

  /** A run that ranks by judgment reaches 1, if there is anything to gain. */
  lemma PerfectRun(judged: Judgments, docs: seq<string>, discount: nat -> real, k: nat)
    requires DistinctKeys(judged) && Distinct(docs) && IsDiscount(discount) && ByJudgment(judged, docs)
    requires 1 <= k && Positive(judged) != []
    ensures NdcgOf(judged, docs, discount, k) == 1.0
  {
    hide Ideal, Gains, DiscountedSum, FirstSum, ByJudgment, Distinct, DistinctKeys, IsDiscount;
    forall n: nat | n <= k
      ensures FirstSum(Gains(judged, docs), n) == FirstSum(Ideal(judged), n)
    {
      PrefixBounded(judged, docs, n);
      PrefixReached(judged, docs, n);
    }
    DiscountedBounded(Gains(judged, docs), Ideal(judged), discount, k);
    DiscountedBounded(Ideal(judged), Gains(judged, docs), discount, k);
    SomethingIdeal(judged, discount, k);
    WholeShare(DiscountedSum(Gains(judged, docs), discount, k), DiscountedSum(Ideal(judged), discount, k));
  }

  lemma WholeShare(x: real, y: real)
    requires x == y && y != 0.0
    ensures x / y == 1.0
  {
  }

  /** Nothing to gain means no positive judgment, or no result asked for. */
  lemma SomethingIdeal(judged: Judgments, discount: nat -> real, k: nat)
    requires IsDiscount(discount)
    ensures DiscountedSum(Ideal(judged), discount, k) == 0.0 <==> k == 0 || Positive(judged) == []
  {
    if Positive(judged) == [] {
      NothingSums(discount, k);
    } else {
      SortPermutes(Positive(judged), Negated);
      AllPositive(judged);
      assert Ideal(judged)[0] in Ideal(judged);
      SumNonNegative(Ideal(judged), discount, k);
    }
  }

  lemma {:induction false} AllPositive(judged: Judgments)
    ensures forall v :: v in Positive(judged) ==> 0 < v
  {
    if judged != [] {
      AllPositive(judged[1..]);
    }
  }

  lemma {:induction false} NothingSums(discount: nat -> real, k: nat)
    ensures DiscountedSum([], discount, k) == 0.0
  {
    if 0 < k {
      NothingSums(discount, k - 1);
    }
  }

  lemma {:induction false} SumPastTheEnd(s: seq<nat>, discount: nat -> real, m: nat)
    requires |s| <= m
    ensures DiscountedSum(s, discount, m) == DiscountedSum(s, discount, |s|)
  {
    if |s| < m {
      SumPastTheEnd(s, discount, m - 1);
    }
  }

  // ---- when it is zero ----

  /** Some of the first k ranked documents is judged positive. */
  ghost predicate Finds(judged: Judgments, docs: seq<string>, k: nat)
  {
    exists i :: 0 <= i < k && i < |docs| && Judged(judged, docs[i]) > 0
  }

  lemma {:induction false} NothingGained(s: seq<nat>, discount: nat -> real, m: nat)
    requires forall i :: 0 <= i < m && i < |s| ==> s[i] == 0
    ensures DiscountedSum(s, discount, m) == 0.0
  {
    if 0 < m {
      NothingGained(s, discount, m - 1);
    }
  }

  lemma {:induction false} SomethingGained(s: seq<nat>, discount: nat -> real, m: nat, i: nat)
    requires IsDiscount(discount) && i < m && i < |s| && 0 < s[i]
    ensures 0.0 < DiscountedSum(s, discount, m)
  {
    SumNonNegative(s, discount, m - 1);
    Product(At(s, m - 1) as real, discount(m));
    if i < m - 1 {
      SomethingGained(s, discount, m - 1, i);
    }
  }

  lemma {:induction false} SomePositive(judged: Judgments, doc: string)
    requires Judged(judged, doc) > 0
    ensures Positive(judged) != []
  {
    if judged[0].0 != doc {
      SomePositive(judged[1..], doc);
    }
  }

  /** NDCG is above zero exactly if some of the first k is judged positive. */
  lemma PositiveIfFound(judged: Judgments, docs: seq<string>, discount: nat -> real, k: nat)
    requires IsDiscount(discount)
    ensures Finds(judged, docs, k) ==> 0.0 < NdcgOf(judged, docs, discount, k)
    ensures !Finds(judged, docs, k) ==> NdcgOf(judged, docs, discount, k) == 0.0
  {
    hide Ideal, IsDiscount, DiscountedSum, Judged;
    if Finds(judged, docs, k) {
      var i :| 0 <= i < k && i < |docs| && Judged(judged, docs[i]) > 0;
      SomePositive(judged, docs[i]);
      SomethingIdeal(judged, discount, k);
      SumNonNegative(Ideal(judged), discount, k);
      SomethingGained(Gains(judged, docs), discount, k, i);
      Above(DiscountedSum(Gains(judged, docs), discount, k), DiscountedSum(Ideal(judged), discount, k));
    } else {
      NothingGained(Gains(judged, docs), discount, k);
      Zero(DiscountedSum(Ideal(judged), discount, k));
    }
  }

  lemma Above(x: real, y: real)
    requires 0.0 < x && 0.0 < y
    ensures 0.0 < x / y
  {
    var q := x / y;
    assert q * y == x;
  }

  lemma Zero(y: real)
    ensures y != 0.0 ==> 0.0 / y == 0.0
  {
  }

  // ---- computing it ----

  /** One query. */
  method QueryNdcg(judged: Judgments, scores: DocScores, discount: nat -> real, k: nat) returns (ndcg: real)
    requires DistinctKeys(judged) && DistinctKeys(scores) && IsDiscount(discount)
    ensures ndcg == NdcgOf(judged, RankedDocids(scores), discount, k) && 0.0 <= ndcg <= 1.0
    ensures 0.0 < ndcg <==> Finds(judged, RankedDocids(scores), k)
  {
    hide Ideal, RankedDocids, IsDiscount, Judged, DistinctKeys, Distinct, Finds;
    var ideal := Ideal(judged);
    var docs := RankedDocids(scores);
    RankedDistinct(scores);
    NdcgInRange(judged, docs, discount, k);
    PositiveIfFound(judged, docs, discount, k);
    var cut := if k < |ideal| then k else |ideal|;
    var idcg := 0.0;
    for rank := 0 to cut
      invariant idcg == DiscountedSum(ideal, discount, rank)
    {
      idcg := idcg + ideal[rank] as real * discount(rank + 1);
    }
    if |ideal| <= k {
      SumPastTheEnd(ideal, discount, k);
    }
    if idcg == 0.0 {
      return 0.0;
    }
    var dcg := Accumulate(judged, docs, discount, k);
    ndcg := dcg / idcg;
  }

  /** The gain of the first k ranked documents. */
  method Accumulate(judged: Judgments, docs: seq<string>, discount: nat -> real, k: nat) returns (dcg: real)
    ensures dcg == DiscountedSum(Gains(judged, docs), discount, k)
  {
    hide Judged;
    ghost var gains := Gains(judged, docs);
    var cut := if k < |docs| then k else |docs|;
    dcg := 0.0;
    for rank := 0 to cut
      invariant dcg == DiscountedSum(gains, discount, rank)
    {
      var rel := Judged(judged, docs[rank]);
      if rel > 0 {
        dcg := dcg + rel as real * discount(rank + 1);
      }
    }
    if |docs| <= k {
      SumPastTheEnd(gains, discount, k);
    }
  }

  /** Every judged query, in order; a query the run does not have gets an empty ranking. */
  method NdcgAtK(qrels: seq<(string, Judgments)>, run: map<string, DocScores>, discount: nat -> real, k: nat)
    returns (scores: seq<(string, real)>)
    requires IsDiscount(discount) && forall i :: 0 <= i < |qrels| ==> DistinctKeys(qrels[i].1)
    requires forall q :: q in run ==> DistinctKeys(run[q])
    ensures |scores| == |qrels|
    ensures forall i :: 0 <= i < |qrels| ==>
      && scores[i].0 == qrels[i].0 && 0.0 <= scores[i].1 <= 1.0
      && scores[i].1 == NdcgOf(qrels[i].1, RankedDocids(if qrels[i].0 in run then run[qrels[i].0] else []), discount, k)
      && (0.0 < scores[i].1 <==>
          Finds(qrels[i].1, RankedDocids(if qrels[i].0 in run then run[qrels[i].0] else []), k))
  {
    hide NdcgOf, RankedDocids, IsDiscount, Finds;
    scores := [];
    for i := 0 to |qrels|
      invariant |scores| == i
      invariant forall j :: 0 <= j < i ==>
        && scores[j].0 == qrels[j].0 && 0.0 <= scores[j].1 <= 1.0
        && scores[j].1 ==
           NdcgOf(qrels[j].1, RankedDocids(if qrels[j].0 in run then run[qrels[j].0] else []), discount, k)
        && (0.0 < scores[j].1 <==>
            Finds(qrels[j].1, RankedDocids(if qrels[j].0 in run then run[qrels[j].0] else []), k))
    {
      var docScores := if qrels[i].0 in run then run[qrels[i].0] else [];
      var ndcg := QueryNdcg(qrels[i].1, docScores, discount, k);
      scores := scores + [(qrels[i].0, ndcg)];
    }
  }
}
