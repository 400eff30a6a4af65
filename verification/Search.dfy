/** Searching the index: the answer is the k best of the corpus's matching documents,
    whichever of the three evaluations computes it. */
module Search {
  import opened Common
  import opened Ranking
  import opened Postings
  import opened PostingCursor
  import opened Sums
  import opened Query
  import opened CursorVector
  import opened Corpus
  import opened SearchIndex
  import Exhaustive
  import Wand
  import BlockMaxWand

  datatype Algorithm = DaatOr | PlainWand | BlockMax

  // ---- what a query means on the corpus ----

  /** A document's score, term by term. */
  ghost function CorpusScore(ix: Index, docs: seq<Document>, terms: seq<Term>, n: nat, d: nat): Score
    requires n <= |terms| && d < |docs|
  {
    if n == 0 then 0.0
    else
      var t := terms[n - 1];
      CorpusScore(ix, docs, terms, n - 1, d) +
      if t in docs[d] then
        WeighBy(ix.docLengths, ix.avgLength)(
          ix.idf(ix.docCount, |InvertedList(docs, t)|), Occurrences(t, docs[d]), d)
      else 0.0
  }

  ghost predicate Relevant(docs: seq<Document>, terms: seq<Term>, d: nat)
  {
    d < |docs| && exists t :: t in terms && t in docs[d]
  }

  /** Every document with any of the terms, with its score. */
  ghost function CorpusResults(ix: Index, docs: seq<Document>, terms: seq<Term>): set<Result>
  {
    set d: nat | d < |docs| && Relevant(docs, terms, d) :: Result(d, CorpusScore(ix, docs, terms, |terms|, d))
  }

  ghost function QueryOf(ix: Index, terms: seq<Term>, n: nat): Query
    requires n <= |terms|
  {
    Query(WeighBy(ix.docLengths, ix.avgLength), ListsFor(ix.records, terms, n))
  }

  lemma RecordIsInverted(ix: Index, docs: seq<Document>, t: Term, r: TermRecord)
    requires ValidIndex(ix, docs) && Holding(ix.records, t, r)
    ensures r.list.postings == InvertedList(docs, t) && r.df == |InvertedList(docs, t)|
    ensures ValidRecord(WeighBy(ix.docLengths, ix.avgLength), ix.idf, ix.docCount, r)
  {
    var i :| 0 <= i < |ix.records| && ix.records[i] == r;
    assert EntriesOf(ix.records)[i].postings == r.list.postings;
  }

  lemma AbsentTerm(ix: Index, docs: seq<Document>, t: Term, d: nat)
    requires ValidIndex(ix, docs) && d < |docs|
    requires !exists r :: Holding(ix.records, t, r)
    ensures t !in docs[d]
  {
    if t in docs[d] {
      OccursIn(t, docs[d]);
      PostingsSound(docs, t, 0, |docs|);
      var terms := TermsOf(EntriesOf(ix.records));
      assert t in terms;
      var i :| 0 <= i < |terms| && terms[i] == t;
      assert Holding(ix.records, t, ix.records[i]);
    }
  }

  /** A list of the index contributes to a document what the corpus says. */
  lemma ListContribution(ix: Index, docs: seq<Document>, t: Term, r: TermRecord, d: nat)
    requires ValidIndex(ix, docs) && Holding(ix.records, t, r)
    ensures Holds(r.list, d) <==> d < |docs| && t in docs[d]
    ensures d < |docs| && t in docs[d] ==>
      Contribution(WeighBy(ix.docLengths, ix.avgLength), r.list, d) ==
      WeighBy(ix.docLengths, ix.avgLength)(ix.idf(ix.docCount, |InvertedList(docs, t)|), Occurrences(t, docs[d]), d)
  {
    RecordIsInverted(ix, docs, t, r);
    PostingsSound(docs, t, 0, |docs|);
    if d < |docs| {
      OccursIn(t, docs[d]);
      if t in docs[d] {
        var p :| 0 <= p < |r.list.postings| && r.list.postings[p] == Posting(d, Occurrences(t, docs[d]));
        ContributionAt(WeighBy(ix.docLengths, ix.avgLength), r.list, p);
      }
    }
    if Holds(r.list, d) {
      var p :| 0 <= p < |r.list.postings| && r.list.postings[p].docid == d;
      assert r.list.postings[p] in r.list.postings;
      OccursIn(t, docs[d]);
    }
  }

  lemma {:induction false} TotalAgree(v: seq<Score>, w: seq<Score>, n: nat)
    requires n <= |v| && n <= |w| && forall i :: 0 <= i < n ==> v[i] == w[i]
    ensures Total(v, n) == Total(w, n)
  {
    if 0 < n {
      TotalAgree(v, w, n - 1);
    }
  }

  lemma ListAppended(w: Weigh, lists: seq<TermList>, t: TermList, d: nat)
    ensures FullScore(Query(w, lists + [t]), d) == FullScore(Query(w, lists), d) + Contribution(w, t, d)
    ensures Matches(Query(w, lists + [t]), d) <==> Matches(Query(w, lists), d) || Holds(t, d)
  {
    var q, more := Query(w, lists), Query(w, lists + [t]);
    TotalAgree(Contributions(q, d), Contributions(more, d), |lists|);
    if Matches(q, d) {
      var i :| 0 <= i < |lists| && Holds(lists[i], d);
      assert Holds(more.lists[i], d);
    }
    if Holds(t, d) {
      assert Holds(more.lists[|lists|], d);
    }
  }

  lemma ListsForTerm(ix: Index, terms: seq<Term>, n: nat) returns (found: Option<TermRecord>)
    requires n < |terms|
    ensures found.None? ==> !exists r :: Holding(ix.records, terms[n], r)
    ensures found.None? ==> ListsFor(ix.records, terms, n + 1) == ListsFor(ix.records, terms, n)
    ensures found.Some? ==> Holding(ix.records, terms[n], found.value)
    ensures found.Some? ==> ListsFor(ix.records, terms, n + 1) == ListsFor(ix.records, terms, n) + [found.value.list]
  {
    var t := terms[n];
    if exists r :: Holding(ix.records, t, r) {
      var r :| Holding(ix.records, t, r) &&
        ListsFor(ix.records, terms, n + 1) == ListsFor(ix.records, terms, n) + [r.list];
      found := Some(r);
    } else {
      found := None;
    }
  }

  /** The lists' view of a document and the corpus's view are the same. */
  lemma {:induction false} ScoresAgree(ix: Index, docs: seq<Document>, terms: seq<Term>, n: nat, d: nat)
    requires ValidIndex(ix, docs) && n <= |terms| && d < |docs|
    ensures FullScore(QueryOf(ix, terms, n), d) == CorpusScore(ix, docs, terms, n, d)
    ensures Matches(QueryOf(ix, terms, n), d) <==> Relevant(docs, terms[..n], d)
  {
    hide ValidIndex;
    if 0 < n {
      ScoresAgree(ix, docs, terms, n - 1, d);
      var t := terms[n - 1];
      assert terms[..n] == terms[..n - 1] + [t];
      var found := ListsForTerm(ix, terms, n - 1);
      if found.Some? {
        ListContribution(ix, docs, t, found.value, d);
        ListAppended(WeighBy(ix.docLengths, ix.avgLength), ListsFor(ix.records, terms, n - 1), found.value.list, d);
      } else {
        AbsentTerm(ix, docs, t, d);
      }
    }
  }

  lemma {:induction false} MatchesInCorpus(ix: Index, docs: seq<Document>, terms: seq<Term>, n: nat, d: nat)
    requires ValidIndex(ix, docs) && n <= |terms| && Matches(QueryOf(ix, terms, n), d)
    ensures d < |docs|
  {
    hide ValidIndex;
    if 0 < n {
      var found := ListsForTerm(ix, terms, n - 1);
      if found.Some? {
        ListContribution(ix, docs, terms[n - 1], found.value, d);
        ListAppended(WeighBy(ix.docLengths, ix.avgLength), ListsFor(ix.records, terms, n - 1), found.value.list, d);
      }
      if Matches(QueryOf(ix, terms, n - 1), d) {
        MatchesInCorpus(ix, docs, terms, n - 1, d);
      }
    }
  }

  lemma ResultsAgree(ix: Index, docs: seq<Document>, terms: seq<Term>)
    requires ValidIndex(ix, docs) && |docs| <= NO_DOCID
    ensures AllResults(QueryOf(ix, terms, |terms|)) == CorpusResults(ix, docs, terms)
  {
    hide ValidIndex, FullScore, CorpusScore, Matches, Relevant, QueryOf;
    assert terms[..|terms|] == terms;
    var q := QueryOf(ix, terms, |terms|);
    forall r: Result | r in AllResults(q)
      ensures r in CorpusResults(ix, docs, terms)
    {
      MatchesInCorpus(ix, docs, terms, |terms|, r.docid);
      ScoresAgree(ix, docs, terms, |terms|, r.docid);
    }
    forall r: Result | r in CorpusResults(ix, docs, terms)
      ensures r in AllResults(q)
    {
      ScoresAgree(ix, docs, terms, |terms|, r.docid);
    }
  }

  // ---- running a query ----

  lemma NoCursors(q: Query)
    requires q.lists == []
    ensures Opened(q, [], map[]) && Tracks(q, [], map[], AtStart(q)) && ValidQuery(q) && AllThorough([])
  {
  }

  /** A cursor more at the end of the vector, with its own buffers. */
  lemma OpenedMore(q: Query, cs: seq<Cursor>, heap: Owners, c: Cursor, heap': Owners)
    requires Opened(q, cs, heap) && c.id == |cs|
    requires c !in heap && c.docids !in heap && c.freqs !in heap
    requires heap' == heap[c := |cs|][c.docids := |cs|][c.freqs := |cs|]
    ensures Opened(Query(q.w, q.lists + [c.list]), cs + [c], heap')
  {
    var lists, more := q.lists + [c.list], cs + [c];
    forall i | 0 <= i < |more|
      ensures more[i].id == i && more[i].list == lists[i]
      ensures more[i] in heap' && more[i].docids in heap' && more[i].freqs in heap'
      ensures heap'[more[i]] == heap'[more[i].docids] == heap'[more[i].freqs] == i
    {
      if i < |cs| {
        assert more[i] == cs[i] && lists[i] == q.lists[i];
      }
    }
  }

  method AddCursor(r: TermRecord, ghost ix: Index, ghost docs: seq<Document>, ghost t: Term, cs: seq<Cursor>,
                   ghost q: Query, ghost heap: Owners)
    returns (more: seq<Cursor>, ghost q': Query, ghost heap': Owners)
    requires ValidIndex(ix, docs) && Holding(ix.records, t, r) && q.w == WeighBy(ix.docLengths, ix.avgLength)
    requires Opened(q, cs, heap) && Tracks(q, cs, heap, AtStart(q)) && ValidQuery(q) && AllThorough(cs)
    ensures AllThorough(more)
    ensures q' == Query(q.w, q.lists + [r.list])
    ensures Opened(q', more, heap') && Tracks(q', more, heap', AtStart(q')) && ValidQuery(q')
    ensures heap.Keys <= heap'.Keys && fresh(heap'.Keys - heap.Keys)
  {
    hide ValidList, Bounded, ValidIndex;
    RecordIsInverted(ix, docs, t, r);
    var c := new Cursor(|cs|, r.list, r.list.blocks, r.list.payload, r.list.idf, r.list.maxImpact);
    more := cs + [c];
    q' := Query(q.w, q.lists + [r.list]);
    heap' := heap[c := |cs|][c.docids := |cs|][c.freqs := |cs|];
    OpenedMore(q, cs, heap, c, heap');
    forall i | 0 <= i < |more|
      ensures more[i].Valid() && more[i].Passed() == 0
    {
      if i < |cs| {
        assert old(cs[i].Valid()) && AtStart(q)[i] == 0;
      }
    }
  }

  method OpenCursors(ix: Index, terms: seq<Term>, ghost docs: seq<Document>)
    returns (cs: seq<Cursor>, ghost q: Query, ghost heap: Owners)
    requires ValidIndex(ix, docs)
    ensures q == QueryOf(ix, Canonical(terms), |Canonical(terms)|) && q.w == WeighBy(ix.docLengths, ix.avgLength)
    ensures Opened(q, cs, heap) && Tracks(q, cs, heap, AtStart(q)) && ValidQuery(q) && AllThorough(cs)
    ensures fresh(heap.Keys)
  {
    hide ValidIndex, Opened, Tracks, ValidQuery, AllThorough, Canonical, RecordsAscend;
    var unique := SortUnique(terms);
    RecordTerms(ix, docs);
    cs, heap := [], map[];
    q := QueryOf(ix, unique, 0);
    NoCursors(q);
    for i := 0 to |unique|
      invariant q == QueryOf(ix, unique, i)
      invariant Opened(q, cs, heap) && Tracks(q, cs, heap, AtStart(q)) && ValidQuery(q) && AllThorough(cs)
      invariant fresh(heap.Keys)
    {
      var found := FindTerm(ix.records, unique[i]);
      ListsForStep(ix.records, unique, i, found);
      if found.Some? {
        cs, q, heap := AddCursor(found.value, ix, docs, unique[i], cs, q, heap);
      }
    }
  }

  lemma RecordTerms(ix: Index, docs: seq<Document>)
    requires ValidIndex(ix, docs)
    ensures RecordsAscend(ix.records)
  {
    var terms := TermsOf(EntriesOf(ix.records));
    forall i, j | 0 <= i < j < |ix.records|
      ensures TermLess(ix.records[i].term, ix.records[j].term)
    {
      assert TermLess(terms[i], terms[j]);
    }
  }

  /** What the corpus answers to the terms of a query. */
  ghost function Answer(ix: Index, docs: seq<Document>, terms: seq<Term>, k: nat): (answer: seq<Result>)
    ensures IsTopK(answer, CorpusResults(ix, docs, Canonical(terms)), k)
  {
    Best(CorpusResults(ix, docs, Canonical(terms)), k)
  }

  /** Every algorithm gives the corpus's answer, and so the same one. */
  method Run(ix: Index, terms: seq<Term>, k: nat, algorithm: Algorithm, ghost docs: seq<Document>)
    returns (out: seq<Result>)
    requires ValidIndex(ix, docs) && |docs| <= NO_DOCID && 1 <= k
    ensures out == Answer(ix, docs, terms, k)
  {
    hide ValidIndex, Opened, Tracks, ValidQuery, IsTopK, AllResults, QueryOf, Canonical, CorpusResults, Best;
    var cs;
    ghost var q, heap;
    cs, q, heap := OpenCursors(ix, terms, docs);
    ResultsAgree(ix, docs, Canonical(terms));
    if |cs| == 0 {
      NothingFound(q, cs, k, heap);
      TopKUnique([], Answer(ix, docs, terms, k), AllResults(q), k);
      return [];
    }
    match algorithm {
      case DaatOr =>
        var stats;
        out, stats := Exhaustive.DaatOr(WeighBy(ix.docLengths, ix.avgLength), cs, k, q, heap);
      case PlainWand =>
        var stats;
        ghost var log;
        out, stats, log := Wand.Wand(WeighBy(ix.docLengths, ix.avgLength), cs, k, q, heap);
      case BlockMax =>
        var stats;
        ghost var log;
        out, stats, log := BlockMaxWand.BlockMaxWand(WeighBy(ix.docLengths, ix.avgLength), cs, k, q, heap);
    }
    TopKUnique(out, Answer(ix, docs, terms, k), AllResults(q), k);
  }

  lemma NothingFound(q: Query, cs: seq<Cursor>, k: nat, heap: Owners)
    requires Opened(q, cs, heap) && |cs| == 0
    ensures IsTopK([], AllResults(q), k)
  {
    assert forall d: nat :: !Matches(q, d);
  }
}
