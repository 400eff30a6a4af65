/** A corpus the builder takes and the index cannot hold: one term's list is so long that
    the offset of its last block does not fit the record. */
module IndexLimits {
  import opened Postings
  import opened BlockOffsets
  import opened Corpus
  import opened SearchIndex

  /** Documents without any term up to a docid that takes five bytes, and then as many
      with one term as make the list of `FarList`. */
  ghost function FarCorpus(t: Term): (docs: seq<Document>)
    ensures |docs| == FAR_DOCID + BLOCK_SIZE * FAR_BLOCKS
    ensures forall d :: 0 <= d < |docs| ==> docs[d] == if d < FAR_DOCID then [] else [t]
  {
    seq(FAR_DOCID + BLOCK_SIZE * FAR_BLOCKS, d => if d < FAR_DOCID then [] else [t])
  }

  lemma OccursOnce(t: Term)
    ensures Occurrences(t, []) == 0 && Occurrences(t, [t]) == 1
  {
    assert [t][..0] == [];
  }

  lemma {:induction false} NothingYet(t: Term, n: nat)
    requires n <= FAR_DOCID
    ensures PostingsIn(FarCorpus(t), t, 0, n) == []
  {
    hide FarCorpus;
    if 0 < n {
      NothingYet(t, n - 1);
      OccursOnce(t);
    }
  }

  lemma {:induction false} FarPostings(t: Term, n: nat)
    requires n <= BLOCK_SIZE * FAR_BLOCKS
    ensures var ps := PostingsIn(FarCorpus(t), t, 0, FAR_DOCID + n);
      |ps| == n && forall i :: 0 <= i < n ==> ps[i] == FarPosting(i)
  {
    hide FarCorpus;
    if n == 0 {
      NothingYet(t, FAR_DOCID);
    } else {
      FarPostings(t, n - 1);
      OccursOnce(t);
    }
  }

  /** The corpus is within the limits of docids and document lengths, and what the
      builder makes of it is no index that decodes to its postings. */
  lemma FarCorpusUnreadable(t: Term, ix: Index)
    requires BuiltFrom(ix, FarCorpus(t))
    ensures FitsIndex(FarCorpus(t)) && !ListsFit(FarCorpus(t)) && !ValidIndex(ix, FarCorpus(t))
  {
    hide FarCorpus, FarList, OffsetsFit, AsWritten, ValidList, PostingsIn;
    var docs := FarCorpus(t);
    FarPostings(t, BLOCK_SIZE * FAR_BLOCKS);
    assert InvertedList(docs, t) == FarList();
    var i :| 0 <= i < |ix.records| && TermsOf(EntriesOf(ix.records))[i] == t;
    assert EntriesOf(ix.records)[i].postings == InvertedList(docs, t);
    OffsetWraps(ix.records[i].list);
  }
}
