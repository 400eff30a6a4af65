/** The first pass of the index builder: analyzed documents are gathered in memory, a
    bounded number at a time, and every batch is written out as a sorted segment. */
module Segments {
  import opened Postings
  import opened Corpus

  method CountTerms(doc: Document) returns (freqs: map<Term, nat>)
    ensures forall t :: t in freqs <==> 0 < Occurrences(t, doc)
    ensures forall t :: t in freqs ==> freqs[t] == Occurrences(t, doc)
  {
    freqs := map[];
    for i := 0 to |doc|
      invariant forall t :: t in freqs <==> 0 < Occurrences(t, doc[..i])
      invariant forall t :: t in freqs ==> freqs[t] == Occurrences(t, doc[..i])
    {
      assert doc[..i + 1][..i] == doc[..i];
      freqs := freqs[doc[i] := 1 + if doc[i] in freqs then freqs[doc[i]] else 0];
    }
    assert doc[..|doc|] == doc;
  }

  /** The in-memory segment holds the inverted index of the documents lo..hi. */
  ghost predicate IsSegment(docs: seq<Document>, lo: nat, hi: nat, segment: map<Term, seq<Posting>>)
    requires lo <= hi <= |docs|
  {
    forall t :: (t in segment <==> PostingsIn(docs, t, lo, hi) != []) &&
                (t in segment ==> segment[t] == PostingsIn(docs, t, lo, hi))
  }

  method AddDocument(segment: map<Term, seq<Posting>>, docid: nat, doc: Document,
                     ghost docs: seq<Document>, ghost lo: nat)
    returns (grown: map<Term, seq<Posting>>)
    requires lo <= docid < |docs| && doc == docs[docid] && IsSegment(docs, lo, docid, segment)
    ensures IsSegment(docs, lo, docid + 1, grown)
  {
    var freqs := CountTerms(doc);
    grown := segment;
    var todo := freqs.Keys;
    while todo != {}
      invariant todo <= freqs.Keys
      invariant forall t :: t in todo ==> (t in grown <==> t in segment) && (t in grown ==> grown[t] == segment[t])
      invariant forall t :: t !in todo ==>
        (t in grown <==> PostingsIn(docs, t, lo, docid + 1) != []) &&
        (t in grown ==> grown[t] == PostingsIn(docs, t, lo, docid + 1))
      decreases todo
    {
      var t :| t in todo;
      grown := grown[t := (if t in grown then grown[t] else []) + [Posting(docid, freqs[t])]];
      todo := todo - {t};
    }
  }

  method SmallestKey(keys: set<Term>) returns (least: Term)
    requires keys != {}
    ensures least in keys && forall t :: t in keys ==> t == least || TermLess(least, t)
  {
    least :| least in keys;
    var rest := keys - {least};
    while rest != {}
      invariant least in keys && rest <= keys
      invariant forall t :: t in keys - rest ==> t == least || TermLess(least, t)
      decreases rest
    {
      var t :| t in rest;
      TermLessTotal(least, t);
      if TermLess(t, least) {
        forall u | u in keys - rest
          ensures u == t || TermLess(t, u)
        {
          if u != least {
            TermLessTransitive(t, least, u);
          }
        }
        least := t;
      }
      rest := rest - {t};
    }
  }

  /** The entries written so far, all before those still to come. */
  ghost predicate PartWritten(segment: map<Term, seq<Posting>>, file: seq<Entry>, rest: set<Term>)
  {
    && rest <= segment.Keys && TermsAscend(TermsOf(file))
    && (forall i :: 0 <= i < |file| ==>
         file[i].term in segment && file[i].term !in rest && file[i].postings == segment[file[i].term])
    && (forall i, t :: 0 <= i < |file| && t in rest ==> TermLess(file[i].term, t))
    && (forall t :: t in segment && t !in rest ==> t in TermsOf(file))
  }

  lemma EntryWritten(segment: map<Term, seq<Posting>>, file: seq<Entry>, rest: set<Term>, t: Term)
    requires PartWritten(segment, file, rest) && t in rest
    requires forall u :: u in rest && u != t ==> TermLess(t, u)
    ensures PartWritten(segment, file + [Entry(t, segment[t])], rest - {t})
  {
    hide TermLess, TermsAscend;
    var more := file + [Entry(t, segment[t])];
    assert TermsOf(more) == TermsOf(file) + [t];
    AscendFurther(TermsOf(file), t);
  }

  lemma AscendFurther(terms: seq<Term>, t: Term)
    requires TermsAscend(terms) && forall i :: 0 <= i < |terms| ==> TermLess(terms[i], t)
    ensures TermsAscend(terms + [t])
  {
    hide TermLess;
  }

  lemma AllWritten(segment: map<Term, seq<Posting>>, file: seq<Entry>, docs: seq<Document>, lo: nat, hi: nat)
    requires lo <= hi <= |docs| && IsSegment(docs, lo, hi, segment) && PartWritten(segment, file, {})
    ensures IsInverted(docs, lo, hi, file)
  {
    hide TermsAscend;
  }

  /** A segment file: the entries of the ordered map, in its order. */
  method FlushSegment(segment: map<Term, seq<Posting>>, ghost docs: seq<Document>, ghost lo: nat, ghost hi: nat)
    returns (file: seq<Entry>)
    requires lo <= hi <= |docs| && IsSegment(docs, lo, hi, segment)
    ensures IsInverted(docs, lo, hi, file)
  {
    hide IsSegment, IsInverted;
    file := [];
    var rest := segment.Keys;
    while rest != {}
      invariant PartWritten(segment, file, rest)
      decreases rest
    {
      assert rest <= segment.Keys;
      hide PartWritten;
      var t := SmallestKey(rest);
      EntryWritten(segment, file, rest, t);
      file := file + [Entry(t, segment[t])];
      rest := rest - {t};
    }
    AllWritten(segment, file, docs, lo, hi);
  }

  ghost predicate IsCut(docs: seq<Document>, cuts: seq<nat>, files: seq<seq<Entry>>, r: nat)
    requires r < |files| < |cuts|
  {
    cuts[r] <= cuts[r + 1] <= |docs| && IsInverted(docs, cuts[r], cuts[r + 1], files[r])
  }

  /** The segments cut the corpus into consecutive ranges; past the last cut no
      document has a term. */
  ghost predicate AreSegments(docs: seq<Document>, hi: nat, cuts: seq<nat>, files: seq<seq<Entry>>)
    requires hi <= |docs|
  {
    && |cuts| == |files| + 1 && cuts[0] == 0 && cuts[|files|] <= hi
    && (forall r :: 0 <= r < |files| ==> IsCut(docs, cuts, files, r))
    && (forall t :: PostingsIn(docs, t, cuts[|files|], hi) == [])
  }

  lemma SegmentsPush(docs: seq<Document>, lo: nat, hi: nat, cuts: seq<nat>, files: seq<seq<Entry>>, file: seq<Entry>)
    requires lo <= hi <= |docs| && AreSegments(docs, lo, cuts, files) && cuts[|files|] == lo
    requires IsInverted(docs, lo, hi, file)
    ensures AreSegments(docs, hi, cuts + [hi], files + [file])
  {
    forall r | 0 <= r < |files|
      ensures IsCut(docs, cuts + [hi], files + [file], r)
    {
      assert IsCut(docs, cuts, files, r);
    }
  }

  /** Each range has as many documents as a segment may, the last one what is left. */
  ghost predicate EvenCuts(cuts: seq<nat>, size: nat, n: nat)
  {
    forall r :: 0 <= r < |cuts| - 1 ==> cuts[r + 1] == if cuts[r] + size <= n then cuts[r] + size else n
  }

  lemma CutsPush(cuts: seq<nat>, size: nat, n: nat, cut: nat)
    requires EvenCuts(cuts, size, n) && cuts != []
    requires cut == if cuts[|cuts| - 1] + size <= n then cuts[|cuts| - 1] + size else n
    ensures EvenCuts(cuts + [cut], size, n)
  {
  }

  method BuildSegments(docs: seq<Document>, segmentDocs: nat) returns (files: seq<seq<Entry>>, ghost cuts: seq<nat>)
    requires 1 <= segmentDocs
    ensures AreSegments(docs, |docs|, cuts, files)
    ensures EvenCuts(cuts, segmentDocs, |docs|) && |files| <= |docs| / segmentDocs + 1
  {
    hide IsInverted, IsSegment, EvenCuts;
    var segment: map<Term, seq<Posting>> := map[];
    var inSegment := 0;
    files, cuts := [], [0];
    ghost var lo := 0;
    NoDocuments(docs, 0);
    NoCuts(segmentDocs, |docs|);
    for docid := 0 to |docs|
      invariant lo <= docid && inSegment == docid - lo < segmentDocs && |files| * segmentDocs == lo
      invariant AreSegments(docs, lo, cuts, files) && cuts[|files|] == lo
      invariant EvenCuts(cuts, segmentDocs, |docs|)
      invariant IsSegment(docs, lo, docid, segment)
    {
      segment := AddDocument(segment, docid, docs[docid], docs, lo);
      inSegment := inSegment + 1;
      if inSegment >= segmentDocs {
        var file := FlushSegment(segment, docs, lo, docid + 1);
        SegmentsPush(docs, lo, docid + 1, cuts, files, file);
        CutsPush(cuts, segmentDocs, |docs|, docid + 1);
        files, cuts := files + [file], cuts + [docid + 1];
        segment := map[];
        inSegment := 0;
        lo := docid + 1;
        NoDocuments(docs, lo);
      }
    }
    FullSegments(|files|, segmentDocs, |docs|);
    if segment != map[] {
      var file := FlushSegment(segment, docs, lo, |docs|);
      SegmentsPush(docs, lo, |docs|, cuts, files, file);
      CutsPush(cuts, segmentDocs, |docs|, |docs|);
      files, cuts := files + [file], cuts + [|docs|];
    } else {
      NothingInRange(docs, lo, cuts, files, segment);
    }
  }

  lemma NoCuts(size: nat, n: nat)
    ensures EvenCuts([0], size, n)
  {
  }

  lemma NoDocuments(docs: seq<Document>, at: nat)
    requires at <= |docs|
    ensures IsSegment(docs, at, at, map[])
    ensures forall t :: PostingsIn(docs, t, at, at) == []
  {
  }

  lemma FullSegments(files: nat, size: nat, n: nat)
    requires 1 <= size && files * size <= n
    ensures files <= n / size
  {
    if n / size < files {
      ProductGrows(n / size + 1, files, size);
      assert false;
    }
  }

  lemma ProductGrows(a: nat, b: nat, c: nat)
    requires a <= b
    ensures a * c <= b * c
  {
  }

  lemma NothingInRange(docs: seq<Document>, lo: nat, cuts: seq<nat>, files: seq<seq<Entry>>,
                       segment: map<Term, seq<Posting>>)
    requires lo <= |docs| && AreSegments(docs, lo, cuts, files) && cuts[|files|] == lo
    requires segment == map[] && IsSegment(docs, lo, |docs|, segment)
    ensures AreSegments(docs, |docs|, cuts, files)
  {
    forall t
      ensures PostingsIn(docs, t, lo, |docs|) == []
    {
      assert t !in segment;
    }
  }
}
