/** What NDCG at k depends on, and what it comes to. */
module NdcgLaws {
  import opened Corpus
  import opened StableSort
  import opened Ndcg

  // ---- the ranking ----

  /** A document with a higher score is ranked before one with a lower, and of two with the
      same score the one with the larger docid. */
  lemma HigherFirst(scores: DocScores, i: nat, j: nat, p: nat, q: nat)
    requires DistinctKeys(scores) && i < |scores| && j < |scores|
    requires p < |RankedDocids(scores)| && q < |RankedDocids(scores)|
    requires RankedDocids(scores)[p] == scores[i].0 && RankedDocids(scores)[q] == scores[j].0
    requires scores[i].1 > scores[j].1 || (scores[i].1 == scores[j].1 && TermLess(scores[j].0, scores[i].0))
    ensures p < q
  {
    var ranked := SortRanked(scores);
    RankingIsRight(scores);
    SameEntry(scores, ranked, i, p);
    SameEntry(scores, ranked, j, q);
    TermLessIrreflexive(scores[i].0);
    if q < p {
      assert RanksBefore(ranked[q], ranked[p]);
      NotBoth(ranked[p], ranked[q]);
    }
  }

  lemma NotBoth(a: (string, real), b: (string, real))
    requires RanksBefore(a, b)
    ensures !RanksBefore(b, a)
  {
    if RanksBefore(b, a) {
      TermLessTransitive(a.0, b.0, a.0);
      TermLessIrreflexive(a.0);
    }
  }

  lemma SameEntry(scores: DocScores, ranked: DocScores, i: nat, p: nat)
    requires DistinctKeys(scores) && i < |scores| && p < |ranked| && ranked[p].0 == scores[i].0
    requires forall y :: y in ranked ==> y in scores
    ensures ranked[p] == scores[i]
  {
    assert ranked[p] in ranked;
    var n :| 0 <= n < |scores| && scores[n] == ranked[p];
    assert n == i;
  }

  // ---- nothing past the k-th rank counts ----

  lemma {:induction false} SameFront(s: seq<nat>, t: seq<nat>, discount: nat -> real, m: nat)
    requires forall i: nat :: i < m ==> At(s, i) == At(t, i)
    ensures DiscountedSum(s, discount, m) == DiscountedSum(t, discount, m)
  {
    if 0 < m {
      SameFront(s, t, discount, m - 1);
    }
  }

  /** Only the first k ranked documents count. */
  lemma OnlyFrontCounts(judged: Judgments, docs: seq<string>, discount: nat -> real, k: nat)
    requires k <= |docs|
    ensures NdcgOf(judged, docs, discount, k) == NdcgOf(judged, docs[..k], discount, k)
  {
    hide Ideal, Gain, DiscountedSum;
    SameFront(Gains(judged, docs), Gains(judged, docs[..k]), discount, k);
  }

  /** And of the judgments only the k highest. */
  lemma OnlyHighestCount(judged: Judgments, discount: nat -> real, k: nat)
    requires k <= |Ideal(judged)|
    ensures DiscountedSum(Ideal(judged), discount, k) == DiscountedSum(Ideal(judged)[..k], discount, k)
    ensures multiset(Ideal(judged)) == multiset(Positive(judged)) && Falling(Ideal(judged))
  {
    hide DiscountedSum, Positive;
    SortPermutes(Positive(judged), Negated);
    IdealFalls(judged);
    SameFront(Ideal(judged), Ideal(judged)[..k], discount, k);
  }

  // ---- one relevant document ----

  /** The only positive judgment. */
  ghost predicate OnlyRelevant(judged: Judgments, p: nat)
  {
    p < |judged| && judged[p].1 > 0 && forall i :: 0 <= i < |judged| && i != p ==> judged[i].1 <= 0
  }

  lemma {:induction false} NonePositive(judged: Judgments)
    requires forall i :: 0 <= i < |judged| ==> judged[i].1 <= 0
    ensures Positive(judged) == []
  {
    if judged != [] {
      NonePositive(judged[1..]);
    }
  }

  lemma {:induction false} OnePositive(judged: Judgments, p: nat)
    requires OnlyRelevant(judged, p)
    ensures Positive(judged) == [judged[p].1]
  {
    if p == 0 {
      NonePositive(judged[1..]);
    } else {
      OnePositive(judged[1..], p - 1);
    }
  }

  lemma SortOne(v: nat)
    ensures Sort([v], Negated) == [v]
  {
    assert [v][1..] == [];
  }

  /** What a judged document is judged, and that others are not. */
  lemma {:induction false} JudgedIs(judged: Judgments, p: nat)
    requires DistinctKeys(judged) && p < |judged|
    ensures Judged(judged, judged[p].0) == judged[p].1
  {
    if 0 < p {
      JudgedIs(judged[1..], p - 1);
    }
  }

  lemma {:induction false} JudgedOther(judged: Judgments, p: nat, doc: string)
    requires OnlyRelevant(judged, p) && doc != judged[p].0
    ensures Judged(judged, doc) <= 0
  {
    if judged[0].0 != doc {
      if p == 0 {
        OthersLow(judged[1..], doc);
      } else {
        JudgedOther(judged[1..], p - 1, doc);
      }
    }
  }

  lemma {:induction false} OthersLow(judged: Judgments, doc: string)
    requires forall i :: 0 <= i < |judged| ==> judged[i].1 <= 0
    ensures Judged(judged, doc) <= 0
  {
    if judged != [] && judged[0].0 != doc {
      OthersLow(judged[1..], doc);
    }
  }

  lemma {:induction false} OneGain(s: seq<nat>, discount: nat -> real, r: nat, m: nat)
    requires 1 <= r <= |s| && forall i :: 0 <= i < |s| && i != r - 1 ==> s[i] == 0
    ensures DiscountedSum(s, discount, m) == if r <= m then s[r - 1] as real * discount(r) else 0.0
  {
    if 0 < m {
      OneGain(s, discount, r, m - 1);
    }
  }

  /** With one relevant document, ranked r-th, NDCG is its discount over that of the first
      rank if it is among the first k, and zero if not. */
  lemma OneRelevant(judged: Judgments, p: nat, docs: seq<string>, r: nat, discount: nat -> real, k: nat)
    requires DistinctKeys(judged) && OnlyRelevant(judged, p) && Distinct(docs) && IsDiscount(discount)
    requires 1 <= r <= |docs| && docs[r - 1] == judged[p].0
    ensures NdcgOf(judged, docs, discount, k) == if r <= k then discount(r) / discount(1) else 0.0
  {
    hide DiscountedSum, Positive, Sort, Judged, DistinctKeys;
    var v := judged[p].1;
    OnePositive(judged, p);
    SortOne(v);
    JudgedIs(judged, p);
    forall i | 0 <= i < |docs| && i != r - 1
      ensures Gain(judged, docs[i]) == 0
    {
      JudgedOther(judged, p, docs[i]);
    }
    OneGain([v], discount, 1, k);
    OneGain(Gains(judged, docs), discount, r, k);
    if 1 <= k {
      Product(v as real, discount(1));
      if r <= k {
        Ratio(v as real, discount(r), discount(1));
      }
    }
  }

  lemma Ratio(v: real, a: real, b: real)
    requires 0.0 < v && 0.0 < b
    ensures v * b != 0.0 && v * a / (v * b) == a / b
  {
    var q := a / b;
    assert q * b == a;
    Product(v, b);
    assert q * (v * b) == v * (q * b);
    QuotientIs(v * a, v * b, q);
  }

  lemma QuotientIs(x: real, y: real, q: real)
    requires y != 0.0 && q * y == x
    ensures x / y == q
  {
  }

  // ---- grades ----

  /** Gains are the judgments themselves: two documents judged x and y, the higher judged
      second. */
  lemma TwoGrades(a: string, x: nat, b: string, y: nat, discount: nat -> real, k: nat)
    requires a != b && 1 <= y <= x && IsDiscount(discount) && 2 <= k
    ensures var best, got := Graded(x, y, discount), Graded(y, x, discount);
      0.0 < best && NdcgOf([(a, x), (b, y)], [b, a], discount, k) == got / best
  {
    var judged: Judgments, docs := [(a, x), (b, y)], [b, a];
    TwoJudgments(a, x, b, y);
    assert Gains(judged, docs) == [y, x];
    hide DiscountedSum, Gains, Ideal, Graded;
    TwoGains(x, y, discount, k);
    TwoGains(y, x, discount, k);
  }

  /** Two judgments in order, each discounted by its rank. */
  function Graded(first: nat, second: nat, discount: nat -> real): real
  {
    first as real * discount(1) + second as real * discount(2)
  }

  lemma TwoJudgments(a: string, x: nat, b: string, y: nat)
    requires a != b && 1 <= y <= x
    ensures Ideal([(a, x), (b, y)]) == [x, y]
    ensures Judged([(a, x), (b, y)], a) == x && Judged([(a, x), (b, y)], b) == y
  {
    var judged: Judgments := [(a, x), (b, y)];
    assert judged[1..] == [(b, y as int)] && judged[1..][1..] == [];
    assert Positive(judged[1..]) == [y];
    SortTwo(x, y);
  }

  lemma SortTwo(x: nat, y: nat)
    requires y <= x
    ensures Sort([x, y], Negated) == [x, y]
  {
    SortOne(y);
    assert [x, y][1..] == [y];
  }

  lemma TwoGains(x: nat, y: nat, discount: nat -> real, k: nat)
    requires 2 <= k && IsDiscount(discount)
    ensures DiscountedSum([x, y], discount, k) == Graded(x, y, discount)
    ensures 0 < x ==> 0.0 < Graded(x, y, discount)
  {
    hide IsDiscount;
    SumPastTheEnd([x, y], discount, k);
    assert DiscountedSum([x, y], discount, 1) == x as real * discount(1);
    SumNonNegative([x, y], discount, k);
  }

  // ---- moving a better document up ----

  /** A ranking with the documents at i and j exchanged. */
  function Swap(docs: seq<string>, i: nat, j: nat): (out: seq<string>)
    requires i < j < |docs|
    ensures |out| == |docs| && out[i] == docs[j] && out[j] == docs[i]
    ensures forall n :: 0 <= n < |docs| && n != i && n != j ==> out[n] == docs[n]
  {
    docs[i := docs[j]][j := docs[i]]
  }

  lemma {:induction false} SwapSums(judged: Judgments, docs: seq<string>, i: nat, j: nat, m: nat)
    requires i < j < |docs|
    ensures FirstSum(Gains(judged, Swap(docs, i, j)), m) as int ==
      FirstSum(Gains(judged, docs), m) + if i < m <= j then Gain(judged, docs[j]) - Gain(judged, docs[i]) else 0
  {
    hide Gain;
    if 0 < m {
      SwapSums(judged, docs, i, j, m - 1);
    }
  }

  /** Moving a document judged no lower up never costs anything. */
  lemma MovingUpHelps(judged: Judgments, docs: seq<string>, i: nat, j: nat, discount: nat -> real, k: nat)
    requires IsDiscount(discount) && i < j < |docs| && Gain(judged, docs[i]) <= Gain(judged, docs[j])
    ensures NdcgOf(judged, docs, discount, k) <= NdcgOf(judged, Swap(docs, i, j), discount, k)
  {
    hide Gain, Ideal, DiscountedSum, FirstSum, IsDiscount;
    forall n: nat | n <= k
      ensures FirstSum(Gains(judged, docs), n) <= FirstSum(Gains(judged, Swap(docs, i, j)), n)
    {
      SwapSums(judged, docs, i, j, n);
    }
    DiscountedBounded(Gains(judged, docs), Gains(judged, Swap(docs, i, j)), discount, k);
    SumNonNegative(Ideal(judged), discount, k);
    Shares(DiscountedSum(Gains(judged, docs), discount, k),
           DiscountedSum(Gains(judged, Swap(docs, i, j)), discount, k), DiscountedSum(Ideal(judged), discount, k));
  }

  lemma Shares(x: real, y: real, z: real)
    requires x <= y && 0.0 <= z
    ensures z != 0.0 ==> x / z <= y / z
  {
    if z != 0.0 {
      var p, q := x / z, y / z;
      assert p * z == x && q * z == y;
    }
  }
}
