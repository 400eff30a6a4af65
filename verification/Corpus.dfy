/** Terms, their byte order, and the inverted index a corpus of analyzed documents
    defines. */
module Corpus {
  import opened Postings

  type Term = string

  /** The order of `std::string::operator<`. */
  predicate TermLess(a: Term, b: Term)
  {
    b != [] && (a == [] || a[0] < b[0] || (a[0] == b[0] && TermLess(a[1..], b[1..])))
  }

  lemma {:induction false} TermLessIrreflexive(a: Term)
    ensures !TermLess(a, a)
  {
    if a != [] {
      TermLessIrreflexive(a[1..]);
    }
  }

  lemma {:induction false} TermLessTransitive(a: Term, b: Term, c: Term)
    requires TermLess(a, b) && TermLess(b, c)
    ensures TermLess(a, c)
  {
    if a != [] && a[0] == b[0] && b[0] == c[0] {
      TermLessTransitive(a[1..], b[1..], c[1..]);
    }
  }

  lemma {:induction false} TermLessTotal(a: Term, b: Term)
    ensures TermLess(a, b) || a == b || TermLess(b, a)
  {
    if a != [] && b != [] && a[0] == b[0] {
      TermLessTotal(a[1..], b[1..]);
      assert a == [a[0]] + a[1..] && b == [b[0]] + b[1..];
    }
  }

  ghost predicate TermsAscend(terms: seq<Term>)
  {
    forall i, j :: 0 <= i < j < |terms| ==> TermLess(terms[i], terms[j])
  }

  /** A document after analysis. */
  type Document = seq<Term>

  function Occurrences(t: Term, doc: Document): nat
  {
    if doc == [] then 0 else Occurrences(t, doc[..|doc| - 1]) + if doc[|doc| - 1] == t then 1 else 0
  }

  lemma {:induction false} OccursIn(t: Term, doc: Document)
    ensures 0 < Occurrences(t, doc) <==> t in doc
    ensures Occurrences(t, doc) <= |doc|
  {
    if doc != [] {
      OccursIn(t, doc[..|doc| - 1]);
      assert doc == doc[..|doc| - 1] + [doc[|doc| - 1]];
    }
  }

  /** The postings of a term in the documents lo..hi: one for each that has it. */
  function PostingsIn(docs: seq<Document>, t: Term, lo: nat, hi: nat): seq<Posting>
    requires lo <= hi <= |docs|
    decreases hi
  {
    if lo == hi then []
    else
      var before, tf := PostingsIn(docs, t, lo, hi - 1), Occurrences(t, docs[hi - 1]);
      if 0 < tf then before + [Posting(hi - 1, tf)] else before
  }

  /** A term's list in the corpus's inverted index. */
  function InvertedList(docs: seq<Document>, t: Term): seq<Posting>
  {
    PostingsIn(docs, t, 0, |docs|)
  }

  /** Consecutive ranges of documents concatenate. */
  lemma {:induction false} PostingsConcatenate(docs: seq<Document>, t: Term, lo: nat, mid: nat, hi: nat)
    requires lo <= mid <= hi <= |docs|
    ensures PostingsIn(docs, t, lo, hi) == PostingsIn(docs, t, lo, mid) + PostingsIn(docs, t, mid, hi)
    decreases hi
  {
    if mid < hi {
      PostingsConcatenate(docs, t, lo, mid, hi - 1);
    }
  }

  /** What is in a range of the inverted index: every document with the term, with its
      frequency, in docid order. */
  lemma {:induction false} PostingsSound(docs: seq<Document>, t: Term, lo: nat, hi: nat)
    requires lo <= hi <= |docs|
    ensures forall p :: p in PostingsIn(docs, t, lo, hi) ==>
      lo <= p.docid < hi && p.tf == Occurrences(t, docs[p.docid]) && 0 < p.tf
    ensures forall d :: lo <= d < hi && 0 < Occurrences(t, docs[d]) ==>
      Posting(d, Occurrences(t, docs[d])) in PostingsIn(docs, t, lo, hi)
    ensures forall i, j :: 0 <= i < j < |PostingsIn(docs, t, lo, hi)| ==>
      PostingsIn(docs, t, lo, hi)[i].docid < PostingsIn(docs, t, lo, hi)[j].docid
    decreases hi
  {
    if lo < hi {
      PostingsSound(docs, t, lo, hi - 1);
      var before := PostingsIn(docs, t, lo, hi - 1);
      assert forall i :: 0 <= i < |before| ==> before[i] in before;
    }
  }

  /** Documents and lengths fit the index's 32-bit fields. */
  ghost predicate FitsIndex(docs: seq<Document>)
  {
    |docs| <= NO_DOCID && forall d :: 0 <= d < |docs| ==> |docs[d]| < 0x1_0000_0000
  }

  lemma {:induction false} InvertedFits(docs: seq<Document>, t: Term, hi: nat)
    requires FitsIndex(docs) && hi <= |docs|
    ensures ValidPostings(PostingsIn(docs, t, 0, hi))
    ensures |PostingsIn(docs, t, 0, hi)| <= hi
  {
    if 0 < hi {
      InvertedFits(docs, t, hi - 1);
      PostingsSound(docs, t, 0, hi - 1);
      OccursIn(t, docs[hi - 1]);
      if 0 < Occurrences(t, docs[hi - 1]) {
        AscendingPush(PostingsIn(docs, t, 0, hi - 1), Posting(hi - 1, Occurrences(t, docs[hi - 1])));
      }
    }
  }

  lemma AscendingPush(a: seq<Posting>, p: Posting)
    requires ValidPostings(a) && Fits(p) && forall r :: r in a ==> r.docid < p.docid
    ensures ValidPostings(a + [p])
  {
    AscendingPrefix(a, a + [p], |a|);
    assert 0 < |a| ==> a[|a| - 1] in a;
  }

  lemma {:induction false} AscendingPrefix(a: seq<Posting>, b: seq<Posting>, n: nat)
    requires n <= |a| && a <= b && AscendingTo(a, n)
    ensures AscendingTo(b, n)
  {
    if 0 < n {
      AscendingPrefix(a, b, n - 1);
    }
  }

  /** A sorted list of terms with their postings. */
  datatype Entry = Entry(term: Term, postings: seq<Posting>)

  ghost function TermsOf(entries: seq<Entry>): (terms: seq<Term>)
    ensures |terms| == |entries| && forall i :: 0 <= i < |terms| ==> terms[i] == entries[i].term
  {
    seq(|entries|, i requires 0 <= i < |entries| => entries[i].term)
  }

  /** `entries` is the inverted index of the documents lo..hi. */
  ghost predicate IsInverted(docs: seq<Document>, lo: nat, hi: nat, entries: seq<Entry>)
    requires lo <= hi <= |docs|
  {
    && TermsAscend(TermsOf(entries))
    && (forall i :: 0 <= i < |entries| ==>
         entries[i].postings == PostingsIn(docs, entries[i].term, lo, hi) && entries[i].postings != [])
    && (forall t :: PostingsIn(docs, t, lo, hi) != [] ==> t in TermsOf(entries))
  }
}
