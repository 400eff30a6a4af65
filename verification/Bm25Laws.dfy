/** What the BM25 score says about documents: how it moves with frequency and length, and
    what that does to the order of results. */
module Bm25Laws {
  import opened Ranking
  import opened Corpus
  import opened SearchIndex
  import opened Search
  import opened LosingTexts

  // ---- one term ----

  /** The score, with its divisions multiplied out. */
  lemma ScoreEquation(idf: Score, tf: nat, docLength: nat, avgLength: real)
    requires 0 < tf && 0.0 < avgLength
    ensures 0.0 < tf as real * avgLength + 0.54 * avgLength + 0.36 * docLength as real
    ensures TermScore(idf, tf, docLength, avgLength) *
            (tf as real * avgLength + 0.54 * avgLength + 0.36 * docLength as real) ==
            1.9 * idf * tf as real * avgLength
  {
    hide LengthNorm, Saturated;
    var f, length, norm := tf as real, docLength as real, LengthNorm(docLength as real, avgLength);
    NormEquation(length, avgLength);
    SaturatedEquation(idf, f, norm);
    var score := Saturated(idf, f, norm);
    Products(score, f, norm, avgLength);
    assert score * (f + norm) * avgLength == 1.9 * idf * f * avgLength;
    Positive(f, avgLength);
  }

  lemma Positive(x: real, y: real)
    requires 0.0 < x && 0.0 < y
    ensures 0.0 < x * y
  {
  }

  lemma Products(score: real, f: real, norm: real, avgLength: real)
    ensures score * (f * avgLength + norm * avgLength) == score * (f + norm) * avgLength
  {
    assert f * avgLength + norm * avgLength == (f + norm) * avgLength;
  }

  lemma NormEquation(docLength: real, avgLength: real)
    requires 0.0 <= docLength && 0.0 < avgLength
    ensures LengthNorm(docLength, avgLength) * avgLength == 0.54 * avgLength + 0.36 * docLength
  {
    var ratio := docLength / avgLength;
    assert ratio * avgLength == docLength;
    assert LengthNorm(docLength, avgLength) == 0.54 + 0.36 * ratio;
  }

  lemma SaturatedEquation(idf: Score, f: real, norm: real)
    requires 0.0 < f && 0.0 < norm
    ensures Saturated(idf, f, norm) * (f + norm) == 1.9 * idf * f
  {
    var share, limit := f / (f + norm), idf * 1.9;
    assert share * (f + norm) == f;
    assert Saturated(idf, f, norm) == limit * share;
    assert limit * share * (f + norm) == limit * (share * (f + norm));
  }

  /** Of two quotients with positive denominators. */
  lemma Quotients(s: real, p: real, x: real, t: real, q: real, y: real)
    requires 0.0 < p && 0.0 < q && s * p == x && t * q == y && x * q < y * p
    ensures s < t
  {
    Positive(p, q);
    assert s * (p * q) == x * q && t * (p * q) == y * p;
    LessCancelled(s, t, p * q);
  }

  lemma LessCancelled(a: real, b: real, c: real)
    requires 0.0 < c && a * c < b * c
    ensures a < b
  {
  }

  lemma StrictlyOrdered(a: real, b: real, c: real)
    requires a < b && 0.0 < c
    ensures a * c < b * c
  {
  }

  /** The same frequency in a longer document is worth less. */
  lemma LongerScoresLess(idf: Score, tf: nat, a: nat, b: nat, avgLength: real)
    requires 0.0 < idf && 0 < tf && 0.0 < avgLength && a < b
    ensures TermScore(idf, tf, b, avgLength) < TermScore(idf, tf, a, avgLength)
  {
    hide TermScore;
    ScoreEquation(idf, tf, a, avgLength);
    ScoreEquation(idf, tf, b, avgLength);
    var f, x := tf as real, 1.9 * idf * tf as real * avgLength;
    var p := f * avgLength + 0.54 * avgLength + 0.36 * b as real;
    var q := f * avgLength + 0.54 * avgLength + 0.36 * a as real;
    assert 0.0 < x by {
      Positive(1.9 * idf, f);
      Positive(1.9 * idf * f, avgLength);
    }
    StrictlyOrdered(q, p, x);
    Quotients(TermScore(idf, tf, b, avgLength), p, x, TermScore(idf, tf, a, avgLength), q, x);
  }

  /** A higher frequency in a document of the same length is worth more. */
  lemma OftenerScoresMore(idf: Score, tf: nat, more: nat, docLength: nat, avgLength: real)
    requires 0.0 < idf && 0 < tf < more && 0.0 < avgLength
    ensures TermScore(idf, tf, docLength, avgLength) < TermScore(idf, more, docLength, avgLength)
  {
    hide TermScore;
    ScoreEquation(idf, tf, docLength, avgLength);
    ScoreEquation(idf, more, docLength, avgLength);
    OftenerIsMore(TermScore(idf, tf, docLength, avgLength), TermScore(idf, more, docLength, avgLength), idf,
                  tf as real, more as real, 0.54 * avgLength + 0.36 * docLength as real, avgLength);
  }

  lemma OftenerIsMore(s: real, t: real, idf: real, f: real, g: real, rest: real, avgLength: real)
    requires 0.0 < idf && 0.0 < f < g && 0.0 < rest && 0.0 < avgLength
    requires s * (f * avgLength + rest) == 1.9 * idf * f * avgLength
    requires t * (g * avgLength + rest) == 1.9 * idf * g * avgLength
    ensures s < t
  {
    var u := 1.9 * idf * avgLength;
    Positive(1.9 * idf, avgLength);
    Positive(f, avgLength);
    Positive(g, avgLength);
    Crossed(u, f, g, rest, avgLength);
    assert 1.9 * idf * f * avgLength == u * f && 1.9 * idf * g * avgLength == u * g;
    Quotients(s, f * avgLength + rest, u * f, t, g * avgLength + rest, u * g);
  }

  lemma Crossed(u: real, f: real, g: real, rest: real, avgLength: real)
    requires 0.0 < u && f < g && 0.0 < rest
    ensures u * f * (g * avgLength + rest) < u * g * (f * avgLength + rest)
  {
    Positive(u, rest);
    StrictlyOrdered(f, g, u * rest);
    assert u * f * (g * avgLength + rest) == u * f * (g * avgLength) + f * (u * rest);
    assert u * g * (f * avgLength + rest) == u * g * (f * avgLength) + g * (u * rest);
    assert u * f * (g * avgLength) == u * g * (f * avgLength);
  }

  /** In a document of average length the length does not matter. */
  lemma AtAverage(idf: Score, tf: nat, docLength: nat)
    requires 0 < tf && 0 < docLength
    ensures TermScore(idf, tf, docLength, docLength as real) * (tf as real + 0.9) == 1.9 * idf * tf as real
  {
    hide TermScore;
    ScoreEquation(idf, tf, docLength, docLength as real);
    var score, f, n := TermScore(idf, tf, docLength, docLength as real), tf as real, docLength as real;
    assert f * n + 0.54 * n + 0.36 * n == (f + 0.9) * n;
    Cancelled(score * (f + 0.9), 1.9 * idf * f, n);
  }

  lemma Cancelled(a: real, b: real, c: real)
    requires 0.0 < c && a * c == b * c
    ensures a == b
  {
  }

  /** Only the ratio of a document's length to the average counts. */
  lemma OnlyRatioCounts(idf: Score, tf: nat, docLength: nat, avgLength: real, n: nat)
    requires 0 < n && 0.0 < avgLength
    ensures TermScore(idf, tf, n * docLength, n as real * avgLength) == TermScore(idf, tf, docLength, avgLength)
  {
    hide TermScore;
    if tf == 0 {
      NoFrequency(idf, docLength, avgLength);
      NoFrequency(idf, n * docLength, n as real * avgLength);
    } else {
      Positive(n as real, avgLength);
      ScoreEquation(idf, tf, docLength, avgLength);
      ScoreEquation(idf, tf, n * docLength, n as real * avgLength);
      ProductAsReal(n, docLength);
      SameQuotient(TermScore(idf, tf, n * docLength, n as real * avgLength), TermScore(idf, tf, docLength, avgLength),
                   idf, tf as real, docLength as real, avgLength, n as real);
    }
  }

  lemma ProductAsReal(n: nat, m: nat)
    ensures (n * m) as real == n as real * m as real
  {
  }

  lemma SameQuotient(s: real, t: real, idf: real, f: real, length: real, avgLength: real, m: real)
    requires 0.0 < f * avgLength + 0.54 * avgLength + 0.36 * length && 0.0 < m
    requires s * (f * (m * avgLength) + 0.54 * (m * avgLength) + 0.36 * (m * length)) == 1.9 * idf * f * (m * avgLength)
    requires t * (f * avgLength + 0.54 * avgLength + 0.36 * length) == 1.9 * idf * f * avgLength
    ensures s == t
  {
    var p := f * avgLength + 0.54 * avgLength + 0.36 * length;
    assert f * (m * avgLength) + 0.54 * (m * avgLength) + 0.36 * (m * length) == m * p;
    assert 1.9 * idf * f * (m * avgLength) == m * (1.9 * idf * f * avgLength);
    assert m * (s * p) == s * (m * p);
    Cancelled(s * p, t * p, m);
    Cancelled(s, t, p);
  }

  lemma NoFrequency(idf: Score, docLength: nat, avgLength: real)
    ensures TermScore(idf, 0, docLength, avgLength) == 0.0
  {
  }

  // ---- whole queries ----

  /** What one term adds to a document's score. */
  ghost function TermShare(ix: Index, docs: seq<Document>, t: Term, d: nat): Score
    requires d < |docs| == |ix.docLengths|
  {
    TermScore(ix.idf(ix.docCount, |InvertedList(docs, t)|), Occurrences(t, docs[d]), ix.docLengths[d], ix.avgLength)
  }

  lemma ScoreStep(ix: Index, docs: seq<Document>, terms: seq<Term>, n: nat, d: nat)
    requires d < |docs| == |ix.docLengths| && n < |terms|
    ensures CorpusScore(ix, docs, terms, n + 1, d) ==
      CorpusScore(ix, docs, terms, n, d) + TermShare(ix, docs, terms[n], d)
  {
    hide Saturated, LengthNorm;
    OccursIn(terms[n], docs[d]);
  }

  /** A query's score is the sum of its parts'. */
  lemma {:induction false} ScoreAddsUp(ix: Index, docs: seq<Document>, a: seq<Term>, b: seq<Term>, n: nat, d: nat)
    requires d < |docs| == |ix.docLengths| && n <= |b|
    ensures CorpusScore(ix, docs, a + b, |a| + n, d) ==
      CorpusScore(ix, docs, a, |a|, d) + CorpusScore(ix, docs, b, n, d)
  {
    hide TermShare;
    if n == 0 {
      FrontScore(ix, docs, a, b, |a|, d);
      assert CorpusScore(ix, docs, b, 0, d) == 0.0;
    } else {
      hide CorpusScore;
      ScoreAddsUp(ix, docs, a, b, n - 1, d);
      ScoreStep(ix, docs, a + b, |a| + n - 1, d);
      ScoreStep(ix, docs, b, n - 1, d);
    }
  }

  lemma {:induction false} FrontScore(ix: Index, docs: seq<Document>, a: seq<Term>, b: seq<Term>, n: nat, d: nat)
    requires d < |docs| && n <= |a|
    ensures CorpusScore(ix, docs, a + b, n, d) == CorpusScore(ix, docs, a, n, d)
  {
    if 0 < n {
      FrontScore(ix, docs, a, b, n - 1, d);
    }
  }

  /** One document has each of the terms at least as often as another, in no more words. */
  ghost predicate Dominates(docs: seq<Document>, terms: seq<Term>, d: nat, e: nat)
  {
    && d < |docs| && e < |docs| && |docs[d]| <= |docs[e]|
    && forall t :: t in terms ==> Occurrences(t, docs[e]) <= Occurrences(t, docs[d])
  }

  /** And is ahead for one of them: it has it more often, or in fewer words. */
  ghost predicate AheadFor(docs: seq<Document>, t: Term, d: nat, e: nat)
  {
    d < |docs| && e < |docs| && t in docs[d] &&
    (Occurrences(t, docs[e]) < Occurrences(t, docs[d]) || |docs[d]| < |docs[e]|)
  }

  ghost predicate AheadForSome(docs: seq<Document>, terms: seq<Term>, d: nat, e: nat)
  {
    exists t :: t in terms && AheadFor(docs, t, d, e)
  }

  lemma SomeAverage(ix: Index, docs: seq<Document>, d: nat)
    requires Inverts(ix, docs) && d < |docs| && docs[d] != []
    ensures 0.0 < ix.avgLength
  {
    hide TotalLength;
    LengthWithin(docs, |docs|, d);
    Share(TotalLength(docs, |docs|) as real, |docs| as real);
  }

  lemma ShareOrdered(ix: Index, docs: seq<Document>, t: Term, d: nat, e: nat)
    requires Inverts(ix, docs) && Informative(ix.idf) && Dominates(docs, [t], d, e)
    ensures TermShare(ix, docs, t, e) <= TermShare(ix, docs, t, d)
    ensures AheadFor(docs, t, d, e) ==> TermShare(ix, docs, t, e) < TermShare(ix, docs, t, d)
  {
    hide TermScore, InvertedList, Informative, Occurrences, Inverts;
    var f, g := Occurrences(t, docs[d]), Occurrences(t, docs[e]);
    assert t in [t];
    OccursIn(t, docs[d]);
    OccursIn(t, docs[e]);
    Recorded(ix, docs);
    var weight := ix.idf(|docs|, |InvertedList(docs, t)|);
    if 0 < f {
      SomeAverage(ix, docs, d);
      SomeWeight(docs, ix.idf, t, d);
    }
    TermOrdered(weight, f, |docs[d]|, g, |docs[e]|, ix.avgLength);
  }

  lemma Recorded(ix: Index, docs: seq<Document>)
    requires Inverts(ix, docs)
    ensures ix.docCount == |docs| == |ix.docLengths|
    ensures forall d :: 0 <= d < |docs| ==> ix.docLengths[d] == |docs[d]|
  {
  }

  lemma TermOrdered(idf: Score, f: nat, a: nat, g: nat, b: nat, avgLength: real)
    requires g <= f && a <= b && (0 < f ==> 0.0 < idf && 0.0 < avgLength)
    ensures TermScore(idf, g, b, avgLength) <= TermScore(idf, f, a, avgLength)
    ensures 0 < f && (g < f || a < b) ==> TermScore(idf, g, b, avgLength) < TermScore(idf, f, a, avgLength)
  {
    hide TermScore;
    if g == 0 {
      NoFrequency(idf, b, avgLength);
    } else {
      if g < f {
        OftenerScoresMore(idf, g, f, b, avgLength);
      }
      if a < b {
        LongerScoresLess(idf, f, a, b, avgLength);
      }
    }
  }

  /** Such a document never scores less, and more if it is ahead for a term. */
  lemma {:induction false} DominatingScoresMore(ix: Index, docs: seq<Document>, terms: seq<Term>, n: nat,
                                                 d: nat, e: nat)
    requires Inverts(ix, docs) && Informative(ix.idf) && n <= |terms| && Dominates(docs, terms, d, e)
    ensures CorpusScore(ix, docs, terms, n, e) <= CorpusScore(ix, docs, terms, n, d)
    ensures AheadForSome(docs, terms[..n], d, e) ==>
      CorpusScore(ix, docs, terms, n, e) < CorpusScore(ix, docs, terms, n, d)
  {
    hide Inverts, Informative, Occurrences, CorpusScore, TermShare, AheadFor;
    Recorded(ix, docs);
    if n == 0 {
      NothingAsked(ix, docs, terms, d);
      NothingAsked(ix, docs, terms, e);
    } else {
      var t := terms[n - 1];
      DominatingScoresMore(ix, docs, terms, n - 1, d, e);
      ShareOrdered(ix, docs, t, d, e);
      ScoreStep(ix, docs, terms, n - 1, d);
      ScoreStep(ix, docs, terms, n - 1, e);
      assert terms[..n] == terms[..n - 1] + [t];
    }
  }

  lemma NothingAsked(ix: Index, docs: seq<Document>, terms: seq<Term>, d: nat)
    requires d < |docs|
    ensures CorpusScore(ix, docs, terms, 0, d) == 0.0
  {
  }

  /** So it comes first: whatever else the query matches, the other document is listed only
      behind it. */
  lemma DominatingFirst(ix: Index, docs: seq<Document>, terms: seq<Term>, k: nat, d: nat, e: nat, j: nat)
    requires Inverts(ix, docs) && Informative(ix.idf)
    requires Dominates(docs, terms, d, e) && AheadForSome(docs, terms, d, e)
    requires j < |Answer(ix, docs, terms, k)| && Answer(ix, docs, terms, k)[j].docid == e
    ensures exists i :: 0 <= i < j && Answer(ix, docs, terms, k)[i].docid == d
  {
    hide Inverts, Informative, Occurrences, CorpusScore, Best, Canonical;
    var unique, out := Canonical(terms), Answer(ix, docs, terms, k);
    assert unique[..|unique|] == unique;
    var t :| t in terms && AheadFor(docs, t, d, e);
    assert t in unique;
    DominatingScoresMore(ix, docs, unique, |unique|, d, e);
    var first := Result(d, CorpusScore(ix, docs, unique, |unique|, d));
    assert Relevant(docs, unique, d);
    assert first in CorpusResults(ix, docs, unique);
    assert out[j] in out;
    AheadIsListed(out, CorpusResults(ix, docs, unique), k, first, j);
  }

  lemma AheadIsListed(out: seq<Result>, all: set<Result>, k: nat, first: Result, j: nat)
    requires IsTopK(out, all, k) && first in all && j < |out| && Better(first, out[j])
    ensures exists i :: 0 <= i < j && out[i] == first
  {
    assert out[j] in out;
    var i :| 0 <= i < |out| && out[i] == first;
  }

  /** Of two documents that have the one term of a query equally often, the shorter comes
      first. */
  lemma ShorterFirst(ix: Index, docs: seq<Document>, t: Term, k: nat, d: nat, e: nat, j: nat)
    requires Inverts(ix, docs) && Informative(ix.idf) && d < |docs| && e < |docs|
    requires 0 < Occurrences(t, docs[d]) == Occurrences(t, docs[e]) && |docs[d]| < |docs[e]|
    requires j < |Answer(ix, docs, [t], k)| && Answer(ix, docs, [t], k)[j].docid == e
    ensures exists i :: 0 <= i < j && Answer(ix, docs, [t], k)[i].docid == d
  {
    hide Inverts, Informative, Occurrences, Answer;
    OccursIn(t, docs[d]);
    assert t in [t] && AheadFor(docs, t, d, e);
    DominatingFirst(ix, docs, [t], k, d, e, j);
  }
}
