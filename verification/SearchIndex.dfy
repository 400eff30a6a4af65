/** The built index, and looking terms up in it. */
module SearchIndex {
  import opened Common
  import opened Ranking
  import opened Varint
  import opened Postings
  import opened Corpus
  import opened Segments
  import opened Merge
  import opened BlockWriter
  import opened BlockOffsets

  /** The BM25 term score for a length norm: it grows with the term frequency towards
      (k1 + 1) idf without reaching it. */
  function Saturated(idf: Score, tf: real, norm: real): (score: Score)
    requires 0.0 < tf && 0.0 < norm
    ensures 0.0 < idf ==> 0.0 < score < idf * 1.9
  {
    var share := tf / (tf + norm);
    assert share * (tf + norm) == tf;
    assert 0.0 < share < 1.0;
    var limit := idf * 1.9;
    assert 0.0 < limit ==> 0.0 < limit * share < limit;
    limit * share
  }

  /** BM25 with k1 = 0.9 and b = 0.4, over exact numbers. */
  function TermScore(idf: Score, tf: nat, docLength: nat, avgLength: real): (score: Score)
    ensures avgLength > 0.0 && 0 < tf && 0.0 < idf ==> 0.0 < score < idf * 1.9
  {
    if avgLength <= 0.0 || tf == 0 then 0.0
    else Saturated(idf, tf as real, LengthNorm(docLength as real, avgLength))
  }

  function LengthNorm(docLength: real, avgLength: real): (norm: real)
    requires 0.0 <= docLength && 0.0 < avgLength
    ensures 0.54 <= norm
  {
    var ratio := docLength / avgLength;
    assert ratio * avgLength == docLength;
    assert 0.0 <= ratio;
    0.9 * (1.0 - 0.4 + 0.4 * ratio)
  }

  /** One term of the index. */
  datatype TermRecord = TermRecord(term: Term, df: nat, list: TermList)

  datatype Index = Index(docCount: nat, docLengths: seq<nat>, avgLength: real, records: seq<TermRecord>,
                         idf: (nat, nat) -> Score)

  function WeighBy(docLengths: seq<nat>, avgLength: real): Weigh
  {
    (idf: Score, tf: nat, d: nat) => if d < |docLengths| then TermScore(idf, tf, docLengths[d], avgLength) else 0.0
  }

  ghost function EntriesOf(records: seq<TermRecord>): (entries: seq<Entry>)
    ensures |entries| == |records|
    ensures forall i :: 0 <= i < |entries| ==> entries[i] == Entry(records[i].term, records[i].list.postings)
  {
    seq(|records|, i requires 0 <= i < |records| => Entry(records[i].term, records[i].list.postings))
  }

  function TotalLength(docs: seq<Document>, n: nat): nat
    requires n <= |docs|
  {
    if n == 0 then 0 else TotalLength(docs, n - 1) + |docs[n - 1]|
  }

  ghost predicate ValidRecord(w: Weigh, idf: (nat, nat) -> Score, n: nat, r: TermRecord)
  {
    r.df == |r.list.postings| && r.list.idf == idf(n, r.df) && ValidList(r.list) && Bounded(w, r.list)
  }

  /** Document lengths, their average and the postings of every term are the corpus's. */
  ghost predicate Inverts(ix: Index, docs: seq<Document>)
  {
    && 0 < |docs| == ix.docCount == |ix.docLengths|
    && (forall d :: 0 <= d < |docs| ==> ix.docLengths[d] == |docs[d]|)
    && ix.avgLength == TotalLength(docs, |docs|) as real / |docs| as real
    && IsInverted(docs, 0, |docs|, EntriesOf(ix.records))
  }

  /** The index of a corpus, its records decoding to those postings. */
  ghost predicate ValidIndex(ix: Index, docs: seq<Document>)
  {
    && Inverts(ix, docs)
    && forall i {:trigger ix.records[i]} :: 0 <= i < |ix.records| ==>
         ValidRecord(WeighBy(ix.docLengths, ix.avgLength), ix.idf, ix.docCount, ix.records[i])
  }

  // ---- building ----

  datatype BuildResult = Built(index: Index) | NoDocuments

  method DocumentLengths(docs: seq<Document>) returns (lengths: seq<nat>, total: nat)
    ensures |lengths| == |docs| && forall d :: 0 <= d < |docs| ==> lengths[d] == |docs[d]|
    ensures total == TotalLength(docs, |docs|)
  {
    lengths, total := [], 0;
    for d := 0 to |docs|
      invariant |lengths| == d && forall e :: 0 <= e < d ==> lengths[e] == |docs[e]|
      invariant total == TotalLength(docs, d)
    {
      lengths := lengths + [|docs[d]|];
      total := total + |docs[d]|;
    }
  }

  /** What the builder writes for a term; it decodes if the last block starts within
      4 GiB. */
  ghost predicate WrittenRecord(w: Weigh, idf: (nat, nat) -> Score, n: nat, r: TermRecord)
  {
    && r.df == |r.list.postings| && r.list.idf == idf(n, r.df)
    && AsWritten(r.list) && (OffsetsFit(r.list.postings) ==> ValidRecord(w, idf, n, r))
  }

  /** No term's list is so long that its last block starts past 4 GiB. */
  ghost predicate ListsFit(docs: seq<Document>)
  {
    forall t :: OffsetsFit(InvertedList(docs, t))
  }

  /** Corpora of up to 429,496,729 documents have no such list. */
  lemma SmallCorpusFits(docs: seq<Document>)
    requires FitsIndex(docs) && 10 * |docs| <= UINT32_LIMIT
    ensures ListsFit(docs)
  {
    hide OffsetsFit, FitsIndex;
    forall t
      ensures OffsetsFit(InvertedList(docs, t))
    {
      InvertedFits(docs, t, |docs|);
      SmallFits(InvertedList(docs, t));
    }
  }

  method WriteRecords(entries: seq<Entry>, w: Weigh, idf: (nat, nat) -> Score, n: nat, ghost docs: seq<Document>)
    returns (records: seq<TermRecord>)
    requires n == |docs| && FitsIndex(docs) && IsInverted(docs, 0, |docs|, entries)
    ensures EntriesOf(records) == entries
    ensures forall i {:trigger records[i]} :: 0 <= i < |records| ==> WrittenRecord(w, idf, n, records[i])
  {
    hide ValidList, Bounded, IsInverted, IsMaximum, FitsIndex, OffsetsFit, AsWritten;
    records := [];
    for i := 0 to |entries|
      invariant |records| == i
      invariant forall j {:trigger records[j]} :: 0 <= j < i ==>
        Entry(records[j].term, records[j].list.postings) == entries[j] && WrittenRecord(w, idf, n, records[j])
    {
      EntryFits(docs, entries, i);
      var df := |entries[i].postings|;
      var list := WriteTerm(entries[i].postings, w, idf(n, df));
      records := records + [TermRecord(entries[i].term, df, list)];
    }
  }

  lemma EntryFits(docs: seq<Document>, entries: seq<Entry>, i: nat)
    requires FitsIndex(docs) && IsInverted(docs, 0, |docs|, entries) && i < |entries|
    ensures ValidPostings(entries[i].postings) && |entries[i].postings| <= |docs|
  {
    InvertedFits(docs, entries[i].term, |docs|);
  }

  /** An index as the builder leaves it. */
  ghost predicate BuiltFrom(ix: Index, docs: seq<Document>)
  {
    && Inverts(ix, docs)
    && forall i {:trigger ix.records[i]} :: 0 <= i < |ix.records| ==>
         WrittenRecord(WeighBy(ix.docLengths, ix.avgLength), ix.idf, ix.docCount, ix.records[i])
  }

  /** The builder: whatever the size of the segments the records are the corpus's inverted
      index, and they decode to it if every list's last block starts within 4 GiB. */
  method BuildIndex(docs: seq<Document>, segmentDocs: nat, idf: (nat, nat) -> Score) returns (result: BuildResult)
    requires 1 <= segmentDocs && FitsIndex(docs)
    ensures docs == [] ==> result == NoDocuments
    ensures docs != [] ==> result.Built? && result.index.idf == idf && BuiltFrom(result.index, docs)
    ensures docs != [] && ListsFit(docs) ==> ValidIndex(result.index, docs)
  {
    hide IsInverted, AreSegments, ValidRecord, FitsIndex, WrittenRecord, ListsFit;
    var files;
    ghost var cuts;
    files, cuts := BuildSegments(docs, segmentDocs);
    var lengths, total := DocumentLengths(docs);
    if |docs| == 0 {
      return NoDocuments;
    }
    var avgLength := total as real / |docs| as real;
    var entries := MergeSegments(files, docs, cuts);
    var w := WeighBy(lengths, avgLength);
    var records := WriteRecords(entries, w, idf, |docs|, docs);
    result := Built(Index(|docs|, lengths, avgLength, records, idf));
    BuiltIsValid(result.index, docs);
  }

  lemma BuiltIsValid(ix: Index, docs: seq<Document>)
    requires BuiltFrom(ix, docs)
    ensures ListsFit(docs) ==> ValidIndex(ix, docs)
  {
    hide OffsetsFit, ValidRecord, AsWritten;
    if ListsFit(docs) {
      forall i | 0 <= i < |ix.records|
        ensures OffsetsFit(ix.records[i].list.postings)
      {
        assert EntriesOf(ix.records)[i].postings == InvertedList(docs, ix.records[i].term);
      }
    }
  }

  // ---- looking a term up ----

  ghost predicate RecordsAscend(records: seq<TermRecord>)
  {
    forall i, j :: 0 <= i < j < |records| ==> TermLess(records[i].term, records[j].term)
  }

  method FindTerm(records: seq<TermRecord>, term: Term) returns (found: Option<TermRecord>)
    requires RecordsAscend(records)
    ensures found.Some? ==> found.value in records && found.value.term == term
    ensures found.None? ==> forall i :: 0 <= i < |records| ==> records[i].term != term
  {
    var low, high := 0, |records|;
    while low < high
      invariant low <= high <= |records|
      invariant forall i :: 0 <= i < low ==> TermLess(records[i].term, term)
      invariant forall i :: high <= i < |records| ==> TermLess(term, records[i].term)
    {
      var mid := low + (high - low) / 2;
      var here := records[mid].term;
      if term == here {
        return Some(records[mid]);
      }
      TermLessTotal(term, here);
      if TermLess(term, here) {
        forall i | mid <= i < |records|
          ensures TermLess(term, records[i].term)
        {
          if mid < i {
            TermLessTransitive(term, here, records[i].term);
          }
        }
        high := mid;
      } else {
        forall i | 0 <= i <= mid
          ensures TermLess(records[i].term, term)
        {
          if i < mid {
            TermLessTransitive(records[i].term, here, term);
          }
        }
        low := mid + 1;
      }
    }
    TermLessIrreflexive(term);
    return None;
  }

  // ---- opening cursors ----

  ghost predicate Holding(records: seq<TermRecord>, t: Term, r: TermRecord)
  {
    r in records && r.term == t
  }

  /** The lists of the terms the index has, in the order of the terms. */
  ghost function ListsFor(records: seq<TermRecord>, terms: seq<Term>, n: nat): seq<TermList>
    requires n <= |terms|
  {
    if n == 0 then []
    else
      var t, before := terms[n - 1], ListsFor(records, terms, n - 1);
      if exists r :: Holding(records, t, r) then
        var r :| Holding(records, t, r);
        before + [r.list]
      else before
  }

  lemma ListsForStep(records: seq<TermRecord>, terms: seq<Term>, n: nat, found: Option<TermRecord>)
    requires RecordsAscend(records) && n < |terms|
    requires found.Some? ==> Holding(records, terms[n], found.value)
    requires found.None? ==> forall i :: 0 <= i < |records| ==> records[i].term != terms[n]
    ensures found.None? ==> ListsFor(records, terms, n + 1) == ListsFor(records, terms, n)
    ensures found.Some? ==> ListsFor(records, terms, n + 1) == ListsFor(records, terms, n) + [found.value.list]
  {
    if found.Some? {
      forall r | Holding(records, terms[n], r)
        ensures r == found.value
      {
        TermLessIrreflexive(r.term);
        var i :| 0 <= i < |records| && records[i] == r;
        var j :| 0 <= j < |records| && records[j] == found.value;
      }
    }
  }

  function InsertSorted(sorted: seq<Term>, t: Term): (out: seq<Term>)
    requires TermsAscend(sorted)
    ensures TermsAscend(out) && forall u :: u in out <==> u == t || u in sorted
  {
    if sorted == [] then [t]
    else if sorted[0] == t then sorted
    else if TermLess(sorted[0], t) then
      var rest := InsertSorted(sorted[1..], t);
      assert forall u :: u in rest ==> TermLess(sorted[0], u);
      [sorted[0]] + rest
    else
      TermLessTotal(sorted[0], t);
      Before(t, sorted);
      [t] + sorted
  }

  lemma Before(t: Term, sorted: seq<Term>)
    requires TermsAscend(sorted) && sorted != [] && TermLess(t, sorted[0])
    ensures forall i :: 0 <= i < |sorted| ==> TermLess(t, sorted[i])
  {
    forall i | 0 < i < |sorted|
      ensures TermLess(t, sorted[i])
    {
      TermLessTransitive(t, sorted[0], sorted[i]);
    }
  }

  /** The terms a query looks up: each once, in order. */
  function Canonical(terms: seq<Term>): (unique: seq<Term>)
    ensures TermsAscend(unique) && forall t :: t in unique <==> t in terms
  {
    if terms == [] then [] else InsertSorted(Canonical(terms[..|terms| - 1]), terms[|terms| - 1])
  }

  lemma {:induction false} AscendingUnique(a: seq<Term>, b: seq<Term>)
    requires TermsAscend(a) && TermsAscend(b) && forall t :: t in a <==> t in b
    ensures a == b
  {
    assert (a != [] ==> a[0] in a) && (b != [] ==> b[0] in b);
    if a != [] && b != [] {
      assert a[0] in b && b[0] in a;
      assert a[0] == b[0] by {
        if a[0] != b[0] {
          TermLessTransitive(a[0], b[0], a[0]);
          TermLessIrreflexive(a[0]);
        }
      }
      forall t
        ensures t in a[1..] <==> t in b[1..]
      {
        TermLessIrreflexive(t);
        assert t in a <==> t == a[0] || t in a[1..];
        assert t in b <==> t == b[0] || t in b[1..];
      }
      AscendingUnique(a[1..], b[1..]);
    }
  }

  method SortUnique(terms: seq<Term>) returns (unique: seq<Term>)
    ensures unique == Canonical(terms)
  {
    unique := [];
    for i := 0 to |terms|
      invariant TermsAscend(unique) && forall t :: t in unique <==> t in terms[..i]
    {
      assert terms[..i + 1] == terms[..i] + [terms[i]];
      unique := InsertTerm(unique, terms[i]);
    }
    assert terms[..|terms|] == terms;
    AscendingUnique(unique, Canonical(terms));
  }

  method InsertTerm(sorted: seq<Term>, t: Term) returns (out: seq<Term>)
    requires TermsAscend(sorted)
    ensures TermsAscend(out) && forall u :: u in out <==> u == t || u in sorted
  {
    var at := 0;
    while at < |sorted| && TermLess(sorted[at], t)
      invariant at <= |sorted| && forall i :: 0 <= i < at ==> TermLess(sorted[i], t)
    {
      at := at + 1;
    }
    if at < |sorted| && sorted[at] == t {
      return sorted;
    }
    out := sorted[..at] + [t] + sorted[at..];
    if at < |sorted| {
      TermLessTotal(sorted[at], t);
      forall i | at <= i < |sorted|
        ensures TermLess(t, sorted[i])
      {
        if at < i {
          TermLessTransitive(t, sorted[at], sorted[i]);
        }
      }
    }
    assert sorted == sorted[..at] + sorted[at..];
  }
}
