/** Over-fetching on texts: the queries that lose a live result are queries documents can
    meet, so exactness for all documents and terms is the same condition on ids. */
module LosingTexts {
  import opened Ranking
  import opened FanOut
  import opened SegmentSet
  import opened OverFetch
  import opened Corpus
  import opened SearchIndex
  import opened Search

  // ---- what an index of given documents weighs ----

  /** Document count, lengths and their average as the builder records them. */
  function Measured(docs: seq<Document>, idf: (nat, nat) -> Score): Index
  {
    var average := if docs == [] then 0.0 else TotalLength(docs, |docs|) as real / |docs| as real;
    Index(|docs|, seq(|docs|, d requires 0 <= d < |docs| => |docs[d]|), average, [], idf)
  }

  /** A search sees no more of a valid index than this and the documents. */
  lemma MeasuredIsEnough(ix: Index, docs: seq<Document>, terms: seq<Term>)
    requires Inverts(ix, docs)
    ensures CorpusResults(ix, docs, terms) == CorpusResults(Measured(docs, ix.idf), docs, terms)
  {
    hide CorpusScore;
    assert ix.docLengths == Measured(docs, ix.idf).docLengths;
    forall d: nat | d < |docs|
      ensures CorpusScore(ix, docs, terms, |terms|, d) == CorpusScore(Measured(docs, ix.idf), docs, terms, |terms|, d)
    {
      SameScore(ix, Measured(docs, ix.idf), docs, terms, |terms|, d);
    }
  }

  lemma {:induction false} SameScore(a: Index, b: Index, docs: seq<Document>, terms: seq<Term>, n: nat, d: nat)
    requires a.(records := []) == b.(records := []) && n <= |terms| && d < |docs|
    ensures CorpusScore(a, docs, terms, n, d) == CorpusScore(b, docs, terms, n, d)
  {
    if 0 < n {
      SameScore(a, b, docs, terms, n - 1, d);
    }
  }

  /** A term that some document has is worth something. */
  ghost predicate Informative(idf: (nat, nat) -> Score)
  {
    forall n: nat, df: nat :: 1 <= df <= n ==> 0.0 < idf(n, df)
  }

  // ---- documents that lose ----

  const HIT: Term := "a"
  const FILL: Term := "b"

  /** The deleted documents have the term twice, a live one once in as many words, the
      others not at all. */
  function LosingDocs(ids: seq<string>, tombstones: set<string>, alive: nat): (docs: seq<Document>)
    ensures |docs| == |ids|
    ensures forall d :: 0 <= d < |ids| ==>
      docs[d] == if ids[d] in tombstones then [HIT, HIT] else if d == alive then [HIT, FILL] else []
  {
    seq(|ids|, d requires 0 <= d < |ids| =>
      if ids[d] in tombstones then [HIT, HIT] else if d == alive then [HIT, FILL] else [])
  }

  lemma HitCounts()
    ensures Occurrences(HIT, [HIT, HIT]) == 2 && Occurrences(HIT, [HIT, FILL]) == 1 && HIT !in [FILL]
  {
    assert [HIT, HIT][..1] == [HIT] && [HIT][..0] == [] && [HIT, FILL][..1] == [HIT];
    assert Occurrences(HIT, [HIT]) == 1;
  }

  lemma MoreIsBetter(idf: Score, norm: real)
    requires 0.0 < idf && 0.0 < norm
    ensures Saturated(idf, 1.0, norm) < Saturated(idf, 2.0, norm)
  {
    var once, twice := 1.0 / (1.0 + norm), 2.0 / (2.0 + norm);
    var both := (1.0 + norm) * (2.0 + norm);
    assert once * (1.0 + norm) == 1.0 && twice * (2.0 + norm) == 2.0;
    assert once * both == 2.0 + norm && twice * both == 2.0 * (1.0 + norm);
    assert once < twice;
    assert idf * 1.9 * once < idf * 1.9 * twice;
  }

  lemma {:induction false} LengthWithin(docs: seq<Document>, n: nat, d: nat)
    requires d < n <= |docs|
    ensures |docs[d]| <= TotalLength(docs, n)
  {
    if d < n - 1 {
      LengthWithin(docs, n - 1, d);
    }
  }

  lemma {:induction false} FewPostings(docs: seq<Document>, t: Term, n: nat)
    requires n <= |docs|
    ensures |PostingsIn(docs, t, 0, n)| <= n
  {
    if 0 < n {
      FewPostings(docs, t, n - 1);
    }
  }

  lemma Share(total: real, n: real)
    requires 0.0 < total && 0.0 < n
    ensures 0.0 < total / n
  {
    assert total / n * n == total;
  }

  lemma SomeLength(docs: seq<Document>, idf: (nat, nat) -> Score, d: nat)
    requires d < |docs| && docs[d] != []
    ensures 0.0 < Measured(docs, idf).avgLength
  {
    hide TotalLength;
    LengthWithin(docs, |docs|, d);
    Share(TotalLength(docs, |docs|) as real, |docs| as real);
  }

  /** A term some document has is worth something. */
  lemma SomeWeight(docs: seq<Document>, idf: (nat, nat) -> Score, t: Term, d: nat)
    requires Informative(idf) && d < |docs| && t in docs[d]
    ensures 0.0 < idf(|docs|, |InvertedList(docs, t)|)
  {
    hide PostingsIn, Occurrences;
    FewPostings(docs, t, |docs|);
    PostingsSound(docs, t, 0, |docs|);
    OccursIn(t, docs[d]);
    assert InvertedList(docs, t) != [];
  }

  /** A document's score for one term. */
  lemma OneTermScore(ix: Index, docs: seq<Document>, t: Term, d: nat)
    requires d < |docs| == |ix.docLengths|
    ensures CorpusScore(ix, docs, [t], 1, d) ==
      if t !in docs[d] then 0.0
      else
        TermScore(ix.idf(ix.docCount, |InvertedList(docs, t)|), Occurrences(t, docs[d]),
                  ix.docLengths[d], ix.avgLength)
  {
    assert CorpusScore(ix, docs, [t], 0, d) == 0.0;
  }

  lemma OnlyTerm(t: Term)
    ensures Canonical([t]) == [t]
  {
    assert [t][..0] == [] && Canonical([]) == [];
  }

  /** The deleted documents all score better than the live one, and nothing else matches. */
  lemma LosingScores(ids: seq<string>, tombstones: set<string>, alive: nat, idf: (nat, nat) -> Score)
    returns (high: Score, low: Score)
    requires Informative(idf) && alive < |ids| && ids[alive] !in tombstones
    ensures low < high
    ensures var docs := LosingDocs(ids, tombstones, alive);
      CorpusResults(Measured(docs, idf), docs, Canonical([HIT])) == Losing(ids, tombstones, alive, high, low)
  {
    hide CorpusScore, TermScore, Canonical, InvertedList, LengthNorm, Saturated;
    var docs := LosingDocs(ids, tombstones, alive);
    var ix := Measured(docs, idf);
    HitCounts();
    SomeLength(docs, idf, alive);
    SomeWeight(docs, idf, HIT, alive);
    OnlyTerm(HIT);
    var weight := idf(|docs|, |InvertedList(docs, HIT)|);
    high, low := TermScore(weight, 2, 2, ix.avgLength), TermScore(weight, 1, 2, ix.avgLength);
    TwiceIsBetter(weight, ix.avgLength);
    forall d: nat | d < |docs|
      ensures HIT in docs[d] <==> ids[d] in tombstones || d == alive
      ensures HIT in docs[d] ==>
        CorpusScore(ix, docs, [HIT], 1, d) == if ids[d] in tombstones then high else low
    {
      OneTermScore(ix, docs, HIT, d);
    }
    SameAsLosing(ids, tombstones, alive, ix, docs, high, low);
  }

  lemma TwiceIsBetter(weight: Score, average: real)
    requires 0.0 < weight && 0.0 < average
    ensures TermScore(weight, 1, 2, average) < TermScore(weight, 2, 2, average)
  {
    MoreIsBetter(weight, LengthNorm(2.0, average));
  }

  lemma SameAsLosing(ids: seq<string>, tombstones: set<string>, alive: nat, ix: Index, docs: seq<Document>,
                     high: Score, low: Score)
    requires |docs| == |ids| && alive < |ids| && ids[alive] !in tombstones
    requires forall d: nat :: d < |docs| ==> (HIT in docs[d] <==> ids[d] in tombstones || d == alive)
    requires forall d: nat :: d < |docs| && HIT in docs[d] ==>
      CorpusScore(ix, docs, [HIT], 1, d) == if ids[d] in tombstones then high else low
    ensures CorpusResults(ix, docs, [HIT]) == Losing(ids, tombstones, alive, high, low)
  {
    hide CorpusScore;
    forall d: nat | d < |docs|
      ensures Relevant(docs, [HIT], d) <==> ids[d] in tombstones || d == alive
    {
      assert HIT in [HIT];
    }
  }

  // ---- one segment ----

  /** What a segment's index answers. */
  ghost predicate ExactOnTexts(ids: seq<string>, tombstones: set<string>, idf: (nat, nat) -> Score,
                               docs: seq<Document>, terms: seq<Term>, k: nat)
  {
    var ix := Measured(docs, idf);
    ExactOn(ids, tombstones, CorpusResults(ix, docs, Canonical(terms)), Answer(ix, docs, terms, k + |tombstones|), k)
  }

  lemma ResultsFit(ix: Index, docs: seq<Document>, terms: seq<Term>)
    ensures FanOut.Fits(|docs|, CorpusResults(ix, docs, terms))
  {
    hide CorpusScore;
  }

  /** Over-fetching is exact for all documents with given ids and all query terms exactly
      when it is for all sets of matches. */
  lemma TextsDecide(ids: seq<string>, tombstones: set<string>, idf: (nat, nat) -> Score)
    requires Informative(idf)
    ensures Coverable(ids, tombstones) <==>
      forall docs, terms, k :: |docs| == |ids| && 1 <= k ==> ExactOnTexts(ids, tombstones, idf, docs, terms, k)
  {
    hide IsTopK, ExactOn, CorpusResults, Losing, Coverable, Canonical, Informative;
    if Coverable(ids, tombstones) {
      forall docs, terms, k: nat | |docs| == |ids| && 1 <= k
        ensures ExactOnTexts(ids, tombstones, idf, docs, terms, k)
      {
        var ix := Measured(docs, idf);
        ResultsFit(ix, docs, Canonical(terms));
        CoverableIsExact(ids, tombstones, CorpusResults(ix, docs, Canonical(terms)),
                         Answer(ix, docs, terms, k + |tombstones|), k);
      }
    } else {
      var alive := SomeAlive(ids, tombstones);
      var high, low := LosingScores(ids, tombstones, alive, idf);
      var docs := LosingDocs(ids, tombstones, alive);
      Loses(ids, tombstones, alive, high, low, Answer(Measured(docs, idf), docs, [HIT], 1 + |tombstones|));
      assert !ExactOnTexts(ids, tombstones, idf, docs, [HIT], 1);
    }
  }

  lemma SomeAlive(ids: seq<string>, tombstones: set<string>) returns (alive: nat)
    requires !Coverable(ids, tombstones)
    ensures |tombstones| < |Buried(ids, tombstones)| && alive < |ids| && ids[alive] !in tombstones
  {
    alive :| alive < |ids| && ids[alive] !in tombstones;
  }

  // ---- a set of segments ----

  /** The indexes of given documents, asked for given terms. */
  ghost function TextSegments(ids: seq<seq<string>>, idf: (nat, nat) -> Score, docs: seq<seq<Document>>,
                              terms: seq<Term>): (segments: seq<Searchable>)
    requires |docs| == |ids|
    ensures HaveIds(segments, ids)
    ensures forall i, n: nat :: 0 <= i < |ids| ==>
      segments[i].search(n) == Answer(Measured(docs[i], idf), docs[i], terms, n)
  {
    seq(|ids|, i requires 0 <= i < |ids| =>
      Searchable(ids[i], (n: nat) => Answer(Measured(docs[i], idf), docs[i], terms, n)))
  }

  ghost function TextMatches(idf: (nat, nat) -> Score, docs: seq<seq<Document>>, terms: seq<Term>):
      (matches: seq<set<Result>>)
    ensures |matches| == |docs|
    ensures forall i :: 0 <= i < |docs| ==>
      matches[i] == CorpusResults(Measured(docs[i], idf), docs[i], Canonical(terms))
  {
    seq(|docs|, i requires 0 <= i < |docs| => CorpusResults(Measured(docs[i], idf), docs[i], Canonical(terms)))
  }

  /** As many documents in each segment as it has ids. */
  ghost predicate SameSizes(ids: seq<seq<string>>, docs: seq<seq<Document>>)
  {
    |docs| == |ids| && forall i :: 0 <= i < |ids| ==> |docs[i]| == |ids[i]|
  }

  lemma TextsAnswer(ids: seq<seq<string>>, idf: (nat, nat) -> Score, docs: seq<seq<Document>>, terms: seq<Term>)
    requires SameSizes(ids, docs)
    ensures AllAnswer(TextSegments(ids, idf, docs, terms), TextMatches(idf, docs, terms))
  {
    hide IsTopK, CorpusResults, Canonical, Measured, FanOut.Fits;
    var segments, matches := TextSegments(ids, idf, docs, terms), TextMatches(idf, docs, terms);
    forall i | 0 <= i < |ids|
      ensures FanOut.Fits(|segments[i].ids|, matches[i]) && Sound(segments[i], matches[i])
    {
      ResultsFit(Measured(docs[i], idf), docs[i], Canonical(terms));
    }
  }

  /** Documents of which only those of segment i match, and make it lose. */
  function LosingSet(ids: seq<seq<string>>, tombstones: set<string>, i: nat, alive: nat): (docs: seq<seq<Document>>)
    requires i < |ids|
    ensures SameSizes(ids, docs) && docs[i] == LosingDocs(ids[i], tombstones, alive)
    ensures forall j, d :: 0 <= j < |ids| && j != i && 0 <= d < |docs[j]| ==> docs[j][d] == []
  {
    seq(|ids|, j requires 0 <= j < |ids| =>
      if j == i then LosingDocs(ids[i], tombstones, alive) else seq(|ids[j]|, d => []))
  }

  lemma EmptyDocsMatchNothing(ix: Index, docs: seq<Document>, terms: seq<Term>)
    requires forall d :: 0 <= d < |docs| ==> docs[d] == []
    ensures CorpusResults(ix, docs, terms) == {}
  {
    hide CorpusScore;
    forall d: nat
      ensures !Relevant(docs, terms, d)
    {
    }
  }

  lemma LosingSetLoses(ids: seq<seq<string>>, tombstones: set<string>, idf: (nat, nat) -> Score, i: nat)
    requires Informative(idf) && i < |ids| && !Coverable(ids[i], tombstones)
    ensures exists docs ::
      && SameSizes(ids, docs)
      && !SetExact(TextSegments(ids, idf, docs, [HIT]), tombstones, TextMatches(idf, docs, [HIT]), 1)
  {
    hide IsTopK, CorpusResults, Canonical, Coverable, Losing, SetExact, AllAnswer, InRange, Measured, Informative;
    var alive := SomeAlive(ids[i], tombstones);
    var high, low := LosingScores(ids[i], tombstones, alive, idf);
    var docs, fetch := LosingSet(ids, tombstones, i, alive), 1 + |tombstones|;
    var segments, matches := TextSegments(ids, idf, docs, [HIT]), TextMatches(idf, docs, [HIT]);
    TextsAnswer(ids, idf, docs, [HIT]);
    AnswersInRange(segments, matches, fetch);
    LosingFits(ids[i], tombstones, alive, high, low);
    LastNotFetched(ids[i], tombstones, alive, high, low, segments[i].search(fetch));
    forall j | 0 <= j < |ids| && j != i
      ensures segments[j].search(fetch) == []
    {
      EmptyDocsMatchNothing(Measured(docs[j], idf), docs[j], Canonical([HIT]));
      NothingBest(fetch);
    }
    OverFetch.NothingFound(segments, tombstones, matches, i, Result(alive, low));
  }

  lemma NothingBest(k: nat)
    ensures Best({}, k) == []
  {
  }

  /** And so for a set of segments: it is searched exactly for all documents with its ids
      and all query terms exactly when every segment is coverable. */
  lemma SetTextsDecide(ids: seq<seq<string>>, tombstones: set<string>, idf: (nat, nat) -> Score)
    requires Informative(idf)
    ensures (forall i :: 0 <= i < |ids| ==> Coverable(ids[i], tombstones)) <==>
      forall docs, terms, k :: SameSizes(ids, docs) && 1 <= k ==>
        SetExact(TextSegments(ids, idf, docs, terms), tombstones, TextMatches(idf, docs, terms), k)
  {
    hide IsTopK, CorpusResults, Canonical, Coverable, SetExact, AllAnswer, Measured, Informative;
    if forall i :: 0 <= i < |ids| ==> Coverable(ids[i], tombstones) {
      forall docs, terms, k: nat | SameSizes(ids, docs) && 1 <= k
        ensures SetExact(TextSegments(ids, idf, docs, terms), tombstones, TextMatches(idf, docs, terms), k)
      {
        TextsAnswer(ids, idf, docs, terms);
        CoverableSet(TextSegments(ids, idf, docs, terms), tombstones, TextMatches(idf, docs, terms), k);
      }
    } else {
      var i :| 0 <= i < |ids| && !Coverable(ids[i], tombstones);
      LosingSetLoses(ids, tombstones, idf, i);
    }
  }
}
