/** What follows about a corpus's index, however it was built. */
module IndexLaws {
  import opened Postings
  import opened Corpus
  import opened SearchIndex

  /** There is one inverted index of a corpus, so the size of the segments it was built
      through cannot show in it. */
  lemma InvertedUnique(docs: seq<Document>, a: seq<Entry>, b: seq<Entry>)
    requires IsInverted(docs, 0, |docs|, a) && IsInverted(docs, 0, |docs|, b)
    ensures a == b
  {
    AscendingUnique(TermsOf(a), TermsOf(b));
    forall i | 0 <= i < |a|
      ensures a[i] == b[i]
    {
      assert TermsOf(a)[i] == TermsOf(b)[i];
    }
  }

  // ---- frequencies add up ----

  /** The frequency a list gives a document, 0 if it is not in the list. */
  ghost function FrequencyIn(postings: seq<Posting>, d: nat): nat
  {
    if exists i :: 0 <= i < |postings| && postings[i].docid == d then
      var i :| 0 <= i < |postings| && postings[i].docid == d;
      postings[i].tf
    else 0
  }

  /** A document's frequencies over the first n terms of an index. */
  ghost function FrequencySum(entries: seq<Entry>, d: nat, n: nat): nat
    requires n <= |entries|
  {
    if n == 0 then 0 else FrequencySum(entries, d, n - 1) + FrequencyIn(entries[n - 1].postings, d)
  }

  ghost function OccurrenceSum(terms: seq<Term>, doc: Document, n: nat): nat
    requires n <= |terms|
  {
    if n == 0 then 0 else OccurrenceSum(terms, doc, n - 1) + Occurrences(terms[n - 1], doc)
  }

  lemma FrequencyIsOccurrences(docs: seq<Document>, t: Term, d: nat)
    requires d < |docs|
    ensures FrequencyIn(InvertedList(docs, t), d) == Occurrences(t, docs[d])
  {
    var ps := InvertedList(docs, t);
    PostingsSound(docs, t, 0, |docs|);
    if exists i :: 0 <= i < |ps| && ps[i].docid == d {
      var i :| 0 <= i < |ps| && ps[i].docid == d && FrequencyIn(ps, d) == ps[i].tf;
      assert ps[i] in ps;
    }
  }

  lemma {:induction false} FrequenciesAreOccurrences(docs: seq<Document>, entries: seq<Entry>, d: nat, n: nat)
    requires IsInverted(docs, 0, |docs|, entries) && d < |docs| && n <= |entries|
    ensures FrequencySum(entries, d, n) == OccurrenceSum(TermsOf(entries), docs[d], n)
  {
    if 0 < n {
      FrequenciesAreOccurrences(docs, entries, d, n - 1);
      FrequencyIsOccurrences(docs, entries[n - 1].term, d);
    }
  }

  /** One word more adds one to the sum, if its term is among the first n. */
  lemma {:induction false} OneWordMore(terms: seq<Term>, doc: Document, n: nat)
    requires doc != [] && n <= |terms| && TermsAscend(terms)
    ensures OccurrenceSum(terms, doc, n) ==
      OccurrenceSum(terms, doc[..|doc| - 1], n) + if doc[|doc| - 1] in terms[..n] then 1 else 0
  {
    if 0 < n {
      OneWordMore(terms, doc, n - 1);
      assert terms[..n] == terms[..n - 1] + [terms[n - 1]];
      TermLessIrreflexive(terms[n - 1]);
      assert terms[n - 1] !in terms[..n - 1];
    }
  }

  lemma {:induction false} NoWords(terms: seq<Term>, n: nat)
    requires n <= |terms|
    ensures OccurrenceSum(terms, [], n) == 0
  {
    if 0 < n {
      NoWords(terms, n - 1);
    }
  }

  lemma {:induction false} OccurrencesAddUp(terms: seq<Term>, doc: Document)
    requires TermsAscend(terms) && forall t :: t in doc ==> t in terms
    ensures OccurrenceSum(terms, doc, |terms|) == |doc|
  {
    if doc == [] {
      NoWords(terms, |terms|);
    } else {
      OneWordMore(terms, doc, |terms|);
      OccurrencesAddUp(terms, doc[..|doc| - 1]);
      assert terms[..|terms|] == terms;
    }
  }

  /** Conservation: a document's frequencies over all the terms of the index add up to
      its recorded length. */
  lemma FrequenciesAddUp(ix: Index, docs: seq<Document>, d: nat)
    requires ValidIndex(ix, docs) && d < |docs|
    ensures FrequencySum(EntriesOf(ix.records), d, |ix.records|) == ix.docLengths[d]
  {
    var entries := EntriesOf(ix.records);
    FrequenciesAreOccurrences(docs, entries, d, |entries|);
    forall t | t in docs[d]
      ensures t in TermsOf(entries)
    {
      OccursIn(t, docs[d]);
      PostingsSound(docs, t, 0, |docs|);
    }
    OccurrencesAddUp(TermsOf(entries), docs[d]);
  }

  /** Occurrences are counted right. */
  lemma {:induction false} OccurrencesCount(t: Term, doc: Document)
    ensures Occurrences(t, doc) == multiset(doc)[t]
  {
    if doc != [] {
      OccurrencesCount(t, doc[..|doc| - 1]);
      assert doc == doc[..|doc| - 1] + [doc[|doc| - 1]];
    }
  }

  // ---- the length of the corpus ----

  /** The first n documents, one after the other. */
  function Joined(docs: seq<Document>, n: nat): Document
    requires n <= |docs|
  {
    if n == 0 then [] else Joined(docs, n - 1) + docs[n - 1]
  }

  lemma {:induction false} TotalIsJoined(docs: seq<Document>, n: nat)
    requires n <= |docs|
    ensures TotalLength(docs, n) == |Joined(docs, n)|
  {
    if 0 < n {
      TotalIsJoined(docs, n - 1);
    }
  }

  /** The average times the number of documents is the number of words there are. */
  lemma AverageTimesCount(ix: Index, docs: seq<Document>)
    requires Inverts(ix, docs)
    ensures ix.avgLength * ix.docCount as real == |Joined(docs, |docs|)| as real
  {
    TotalIsJoined(docs, |docs|);
    var n := |docs| as real;
    assert TotalLength(docs, |docs|) as real / n * n == TotalLength(docs, |docs|) as real;
  }

  // ---- the order of terms ----

  /** Terms are compared at the first character they differ in, by its code. */
  lemma {:induction false} FirstDifferenceDecides(front: Term, x: char, a: Term, y: char, b: Term)
    requires x != y
    ensures TermLess(front + [x] + a, front + [y] + b) <==> x < y
  {
    var s, t := front + [x] + a, front + [y] + b;
    if front == [] {
      assert s[0] == x && t[0] == y;
    } else {
      assert s[1..] == front[1..] + [x] + a && t[1..] == front[1..] + [y] + b;
      FirstDifferenceDecides(front[1..], x, a, y, b);
    }
  }

  /** And a term comes before what continues it. */
  lemma {:induction false} PrefixComesFirst(front: Term, rest: Term)
    requires rest != []
    ensures TermLess(front, front + rest) && !TermLess(front + rest, front)
  {
    if front != [] {
      assert (front + rest)[1..] == front[1..] + rest;
      PrefixComesFirst(front[1..], rest);
    }
  }
}
