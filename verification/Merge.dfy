/** The second pass of the index builder: the k-way merge of the sorted segments. */
module Merge {
  import opened Postings
  import opened Corpus
  import opened Segments
  import opened Sums

  /** Reads one segment's entries in order. */
  class SegmentReader {
    const file: seq<Entry>
    var next: nat
    var term: Term
    var postings: seq<Posting>
    var exhausted: bool

    ghost predicate Valid()
      reads this
    {
      && next <= |file|
      && if exhausted then next == |file|
         else 0 < next && Entry(term, postings) == file[next - 1]
    }

    /** How many entries have been read and left behind. */
    ghost function Done(): (n: nat)
      requires Valid()
      reads this
      ensures n <= |file| && (exhausted <==> n == |file|)
      ensures !exhausted ==> file[n] == Entry(term, postings)
    {
      if exhausted then |file| else next - 1
    }

    constructor (file: seq<Entry>)
      ensures Valid() && this.file == file && Done() == 0
    {
      this.file := file;
      next, term, postings, exhausted := 0, [], [], false;
      new;
      Advance();
    }

    method Advance()
      requires next <= |file| && !exhausted
      modifies this
      ensures Valid() && Done() == old(next)
    {
      if next == |file| {
        exhausted := true;
      } else {
        term := file[next].term;
        postings := file[next].postings;
        next := next + 1;
      }
    }
  }

  /** Different readers, one for each file, each having left `done` entries behind. */
  ghost predicate Reading(readers: seq<SegmentReader>, files: seq<seq<Entry>>, done: seq<nat>)
    reads readers
  {
    && |readers| == |files| == |done|
    && (forall r, s :: 0 <= r < s < |readers| ==> readers[r] != readers[s])
    && (forall r :: 0 <= r < |readers| ==>
         readers[r].file == files[r] && readers[r].Valid() && readers[r].Done() == done[r])
  }

  ghost predicate InFiles(files: seq<seq<Entry>>, done: seq<nat>)
  {
    |done| == |files| && forall r :: 0 <= r < |files| ==> done[r] <= |files[r]|
  }

  /** What a reader shows: the first entry not left behind. */
  ghost predicate Shows(files: seq<seq<Entry>>, done: seq<nat>, r: nat, t: Term)
    requires InFiles(files, done) && r < |files|
  {
    done[r] < |files[r]| && files[r][done[r]].term == t
  }

  lemma ReadersInFiles(readers: seq<SegmentReader>, files: seq<seq<Entry>>, done: seq<nat>)
    requires Reading(readers, files, done)
    ensures InFiles(files, done)
    ensures forall r :: 0 <= r < |files| ==> (readers[r].exhausted <==> done[r] == |files[r]|)
    ensures forall r :: 0 <= r < |files| && !readers[r].exhausted ==>
      files[r][done[r]] == Entry(readers[r].term, readers[r].postings)
  {
    forall r | 0 <= r < |files|
      ensures done[r] <= |files[r]| && (readers[r].exhausted <==> done[r] == |files[r]|)
      ensures !readers[r].exhausted ==> files[r][done[r]] == Entry(readers[r].term, readers[r].postings)
    {
      assert readers[r].Valid();
    }
  }

  /** The smallest term any reader shows. */
  method SmallestTerm(readers: seq<SegmentReader>, ghost files: seq<seq<Entry>>, ghost done: seq<nat>)
    returns (found: bool, smallest: Term)
    requires Reading(readers, files, done)
    ensures InFiles(files, done)
    ensures !found ==> forall r :: 0 <= r < |files| ==> done[r] == |files[r]|
    ensures found ==> exists r :: 0 <= r < |files| && Shows(files, done, r, smallest)
    ensures found ==> forall r :: 0 <= r < |files| && done[r] < |files[r]| ==>
      !TermLess(files[r][done[r]].term, smallest)
  {
    hide Reading, TermLess;
    ReadersInFiles(readers, files, done);
    CountReaders(readers, files, done);
    found, smallest := false, [];
    for i := 0 to |readers|
      invariant !found ==> forall r :: 0 <= r < i ==> done[r] == |files[r]|
      invariant found ==> exists r :: 0 <= r < |files| && Shows(files, done, r, smallest)
      invariant found ==> forall r :: 0 <= r < i && done[r] < |files[r]| ==>
        !TermLess(files[r][done[r]].term, smallest)
    {
      if !readers[i].exhausted {
        if !found || TermLess(readers[i].term, smallest) {
          NowSmaller(files, done, i, smallest, readers[i].term, found);
          assert Shows(files, done, i, readers[i].term);
          found, smallest := true, readers[i].term;
        }
      }
    }
  }

  lemma CountReaders(readers: seq<SegmentReader>, files: seq<seq<Entry>>, done: seq<nat>)
    requires Reading(readers, files, done)
    ensures |readers| == |files|
  {
  }

  lemma NowSmaller(files: seq<seq<Entry>>, done: seq<nat>, i: nat, smallest: Term, t: Term, found: bool)
    requires InFiles(files, done) && i < |files| && Shows(files, done, i, t)
    requires found ==> TermLess(t, smallest)
    requires found ==> forall r :: 0 <= r < i && done[r] < |files[r]| ==> !TermLess(files[r][done[r]].term, smallest)
    requires !found ==> forall r :: 0 <= r < i ==> done[r] == |files[r]|
    ensures forall r :: 0 <= r <= i && done[r] < |files[r]| ==> !TermLess(files[r][done[r]].term, t)
  {
    forall r | 0 <= r <= i && done[r] < |files[r]|
      ensures !TermLess(files[r][done[r]].term, t)
    {
      var u := files[r][done[r]].term;
      if TermLess(u, t) {
        if r == i {
          TermLessIrreflexive(t);
        } else {
          TermLessTransitive(u, t, smallest);
        }
      }
    }
  }

  /** What the first n readers showing `t` show, one after the other. */
  ghost function Gathered(files: seq<seq<Entry>>, done: seq<nat>, t: Term, n: nat): seq<Posting>
    requires InFiles(files, done) && n <= |files|
  {
    if n == 0 then []
    else if Shows(files, done, n - 1, t) then Gathered(files, done, t, n - 1) + files[n - 1][done[n - 1]].postings
    else Gathered(files, done, t, n - 1)
  }

  /** The first n readers showing `t` have moved on. */
  ghost predicate MovedOn(files: seq<seq<Entry>>, done: seq<nat>, next: seq<nat>, t: Term, n: nat)
    requires InFiles(files, done)
  {
    && |next| == |done|
    && forall r {:trigger next[r]} :: 0 <= r < |done| ==>
         next[r] == if r < n && Shows(files, done, r, t) then done[r] + 1 else done[r]
  }

  method PassEntry(readers: seq<SegmentReader>, i: nat, ghost files: seq<seq<Entry>>, ghost done: seq<nat>)
    returns (ghost next: seq<nat>)
    requires Reading(readers, files, done) && i < |readers| && !readers[i].exhausted
    modifies readers[i]
    ensures Reading(readers, files, next) && |next| == |done| && next[i] == done[i] + 1
    ensures forall r :: 0 <= r < |done| && r != i ==> next[r] == done[r]
  {
    assert readers[i].Valid();
    readers[i].Advance();
    next := done[i := done[i] + 1];
  }

  lemma MovedOne(files: seq<seq<Entry>>, done: seq<nat>, here: seq<nat>, next: seq<nat>, t: Term, i: nat)
    requires InFiles(files, done) && i < |files| && MovedOn(files, done, here, t, i) && |next| == |done|
    requires next[i] == if Shows(files, done, i, t) then here[i] + 1 else here[i]
    requires forall r :: 0 <= r < |done| && r != i ==> next[r] == here[r]
    ensures MovedOn(files, done, next, t, i + 1)
  {
  }

  lemma NotMovedYet(files: seq<seq<Entry>>, done: seq<nat>, here: seq<nat>, t: Term, i: nat)
    requires InFiles(files, done) && i < |files| && MovedOn(files, done, here, t, i)
    ensures |here| == |done| && here[i] == done[i]
  {
  }

  method TakeTerm(readers: seq<SegmentReader>, term: Term, ghost files: seq<seq<Entry>>, ghost done: seq<nat>)
    returns (merged: seq<Posting>, ghost next: seq<nat>)
    requires Reading(readers, files, done) && InFiles(files, done)
    modifies readers
    ensures merged == Gathered(files, done, term, |files|)
    ensures Reading(readers, files, next) && MovedOn(files, done, next, term, |files|)
  {
    hide Reading, MovedOn;
    CountReaders(readers, files, done);
    merged, next := [], done;
    MovedNone(files, done, term);
    for i := 0 to |readers|
      invariant merged == Gathered(files, done, term, i)
      invariant Reading(readers, files, next) && MovedOn(files, done, next, term, i)
    {
      ghost var here := next;
      ReadersInFiles(readers, files, here);
      NotMovedYet(files, done, here, term, i);
      if !readers[i].exhausted && readers[i].term == term {
        merged := merged + readers[i].postings;
        next := PassEntry(readers, i, files, here);
      }
      MovedOne(files, done, here, next, term, i);
    }
  }

  lemma MovedNone(files: seq<seq<Entry>>, done: seq<nat>, t: Term)
    requires InFiles(files, done)
    ensures MovedOn(files, done, done, t, 0)
  {
  }

  method OpenReaders(files: seq<seq<Entry>>) returns (readers: seq<SegmentReader>, ghost done: seq<nat>)
    ensures Reading(readers, files, done) && fresh(readers)
    ensures forall r :: 0 <= r < |done| ==> done[r] == 0
  {
    readers, done := [], [];
    for i := 0 to |files|
      invariant Reading(readers, files[..i], done) && fresh(readers)
      invariant forall r :: 0 <= r < |done| ==> done[r] == 0
    {
      var reader := new SegmentReader(files[i]);
      readers, done := readers + [reader], done + [0];
    }
    assert files[..|files|] == files;
  }

  /** The state of the merge: the records written so far, and how far each segment has
      been read. */
  ghost predicate Merging(docs: seq<Document>, files: seq<seq<Entry>>, done: seq<nat>, records: seq<Entry>)
  {
    && InFiles(files, done)
    && TermsAscend(TermsOf(records))
    && (forall i :: 0 <= i < |records| ==>
         records[i].postings == InvertedList(docs, records[i].term) && records[i].postings != [])
    && (forall i, r :: 0 <= i < |records| && 0 <= r < |files| && done[r] < |files[r]| ==>
         TermLess(records[i].term, files[r][done[r]].term))
    && (forall r, j :: 0 <= r < |files| && 0 <= j < done[r] ==> files[r][j].term in TermsOf(records))
  }

  /** `t` is shown, and nothing smaller is. */
  ghost predicate IsSmallest(files: seq<seq<Entry>>, done: seq<nat>, t: Term)
    requires InFiles(files, done)
  {
    && (exists r :: 0 <= r < |files| && Shows(files, done, r, t))
    && (forall r :: 0 <= r < |files| && done[r] < |files[r]| ==> !TermLess(files[r][done[r]].term, t))
  }

  /** A segment that has the smallest term shows it. */
  lemma SegmentShows(docs: seq<Document>, cuts: seq<nat>, files: seq<seq<Entry>>, done: seq<nat>,
                     records: seq<Entry>, t: Term, r: nat)
    requires AreSegments(docs, |docs|, cuts, files) && Merging(docs, files, done, records)
    requires IsSmallest(files, done, t) && r < |files|
    requires IsCut(docs, cuts, files, r)
    ensures Shows(files, done, r, t) ==>
      files[r][done[r]].postings == PostingsIn(docs, t, cuts[r], cuts[r + 1])
    ensures !Shows(files, done, r, t) ==> PostingsIn(docs, t, cuts[r], cuts[r + 1]) == []
  {
    if PostingsIn(docs, t, cuts[r], cuts[r + 1]) != [] {
      var terms := TermsOf(files[r]);
      assert t in terms;
      var j :| 0 <= j < |terms| && terms[j] == t;
      NotLeftBehind(docs, files, done, records, t, r, j);
    }
  }

  /** What is shown has not been written yet, so no segment has left it behind. */
  lemma NotLeftBehind(docs: seq<Document>, files: seq<seq<Entry>>, done: seq<nat>,
                      records: seq<Entry>, t: Term, r: nat, j: nat)
    requires Merging(docs, files, done, records) && IsSmallest(files, done, t)
    requires r < |files| && j < |files[r]| && files[r][j].term == t
    ensures done[r] <= j
  {
    var s :| 0 <= s < |files| && Shows(files, done, s, t);
    TermLessIrreflexive(t);
    assert forall i :: 0 <= i < |records| ==> TermLess(records[i].term, t);
    assert t !in TermsOf(records);
  }

  lemma {:induction false} GatheredIsInverted(docs: seq<Document>, cuts: seq<nat>, files: seq<seq<Entry>>,
                                              done: seq<nat>, records: seq<Entry>, t: Term, n: nat)
    requires AreSegments(docs, |docs|, cuts, files) && Merging(docs, files, done, records)
    requires IsSmallest(files, done, t) && n <= |files|
    ensures cuts[n] <= |docs| && Gathered(files, done, t, n) == PostingsIn(docs, t, 0, cuts[n])
  {
    if 0 < n {
      GatheredIsInverted(docs, cuts, files, done, records, t, n - 1);
      assert IsCut(docs, cuts, files, n - 1);
      SegmentShows(docs, cuts, files, done, records, t, n - 1);
      PostingsConcatenate(docs, t, 0, cuts[n - 1], cuts[n]);
    }
  }

  /** One round: the smallest term's postings, concatenated over the segments, are its
      list in the inverted index. */
  lemma MergeRound(docs: seq<Document>, cuts: seq<nat>, files: seq<seq<Entry>>, done: seq<nat>, next: seq<nat>,
                   records: seq<Entry>, t: Term)
    requires AreSegments(docs, |docs|, cuts, files) && Merging(docs, files, done, records)
    requires IsSmallest(files, done, t) && MovedOn(files, done, next, t, |files|)
    ensures var merged := Gathered(files, done, t, |files|);
      merged == InvertedList(docs, t) && merged != [] &&
      Merging(docs, files, next, records + [Entry(t, merged)])
  {
    hide TermLess, IsInverted;
    var merged := Gathered(files, done, t, |files|);
    GatheredIsInverted(docs, cuts, files, done, records, t, |files|);
    PostingsConcatenate(docs, t, 0, cuts[|files|], |docs|);
    assert PostingsIn(docs, t, cuts[|files|], |docs|) == [];
    GatheredSome(docs, cuts, files, done, t);
    var more := records + [Entry(t, merged)];
    RecordsAscend(docs, files, done, records, t);
    assert TermsOf(more) == TermsOf(records) + [t];
    forall r, i | 0 <= r < |files| && next[r] < |files[r]| && 0 <= i < |more|
      ensures TermLess(more[i].term, files[r][next[r]].term)
    {
      ShownNext(docs, cuts, files, done, next, t, r);
      if i < |records| {
        TermLessTransitive(records[i].term, t, files[r][next[r]].term);
      }
    }
    forall r, j | 0 <= r < |files| && 0 <= j < next[r]
      ensures files[r][j].term in TermsOf(more)
    {
      if j < done[r] {
        assert files[r][j].term in TermsOf(records);
      } else {
        assert TermsOf(more)[|records|] == t;
      }
    }
  }

  lemma RecordsAscend(docs: seq<Document>, files: seq<seq<Entry>>, done: seq<nat>, records: seq<Entry>, t: Term)
    requires Merging(docs, files, done, records) && IsSmallest(files, done, t)
    ensures TermsAscend(TermsOf(records) + [t])
    ensures forall i :: 0 <= i < |records| ==> TermLess(records[i].term, t)
  {
    var s :| 0 <= s < |files| && Shows(files, done, s, t);
  }

  /** After a round every reader shows something larger. */
  lemma ShownNext(docs: seq<Document>, cuts: seq<nat>, files: seq<seq<Entry>>, done: seq<nat>, next: seq<nat>,
                  t: Term, r: nat)
    requires AreSegments(docs, |docs|, cuts, files) && InFiles(files, done) && r < |files|
    requires IsSmallest(files, done, t) && MovedOn(files, done, next, t, |files|) && next[r] < |files[r]|
    ensures TermLess(t, files[r][next[r]].term)
  {
    if Shows(files, done, r, t) {
      assert IsCut(docs, cuts, files, r);
      var terms := TermsOf(files[r]);
      assert TermLess(terms[done[r]], terms[next[r]]);
    } else {
      TermLessTotal(t, files[r][next[r]].term);
    }
  }

  lemma GatheredSome(docs: seq<Document>, cuts: seq<nat>, files: seq<seq<Entry>>, done: seq<nat>, t: Term)
    requires AreSegments(docs, |docs|, cuts, files) && InFiles(files, done) && IsSmallest(files, done, t)
    ensures Gathered(files, done, t, |files|) != []
  {
    var s :| 0 <= s < |files| && Shows(files, done, s, t);
    assert IsCut(docs, cuts, files, s);
    assert files[s][done[s]].postings != [];
    GatheredGrows(files, done, t, s + 1, |files|);
  }

  lemma {:induction false} GatheredGrows(files: seq<seq<Entry>>, done: seq<nat>, t: Term, n: nat, m: nat)
    requires InFiles(files, done) && n <= m <= |files|
    ensures |Gathered(files, done, t, n)| <= |Gathered(files, done, t, m)|
  {
    if n < m {
      GatheredGrows(files, done, t, n, m - 1);
    }
  }

  lemma {:induction false} SomeSegmentHas(docs: seq<Document>, cuts: seq<nat>, files: seq<seq<Entry>>, t: Term, n: nat)
    returns (r: nat)
    requires AreSegments(docs, |docs|, cuts, files) && n <= |files| && cuts[n] <= |docs|
    requires PostingsIn(docs, t, 0, cuts[n]) != []
    ensures r < n && t in TermsOf(files[r])
  {
    assert IsCut(docs, cuts, files, n - 1);
    if t in TermsOf(files[n - 1]) {
      r := n - 1;
    } else {
      PostingsConcatenate(docs, t, 0, cuts[n - 1], cuts[n]);
      r := SomeSegmentHas(docs, cuts, files, t, n - 1);
    }
  }

  /** When every segment is read, the records are the inverted index. */
  lemma MergeDone(docs: seq<Document>, cuts: seq<nat>, files: seq<seq<Entry>>, done: seq<nat>, records: seq<Entry>)
    requires AreSegments(docs, |docs|, cuts, files) && Merging(docs, files, done, records)
    requires forall r :: 0 <= r < |files| ==> done[r] == |files[r]|
    ensures IsInverted(docs, 0, |docs|, records)
  {
    forall t | PostingsIn(docs, t, 0, |docs|) != []
      ensures t in TermsOf(records)
    {
      assert PostingsIn(docs, t, cuts[|files|], |docs|) == [];
      PostingsConcatenate(docs, t, 0, cuts[|files|], |docs|);
      var r := SomeSegmentHas(docs, cuts, files, t, |files|);
      var j :| 0 <= j < |files[r]| && TermsOf(files[r])[j] == t;
      assert files[r][j].term in TermsOf(records);
    }
  }

  lemma NothingMerged(docs: seq<Document>, files: seq<seq<Entry>>, done: seq<nat>)
    requires InFiles(files, done) && forall r :: 0 <= r < |done| ==> done[r] == 0
    ensures Merging(docs, files, done, [])
  {
  }

  ghost function Sizes(files: seq<seq<Entry>>): (v: seq<nat>)
    ensures |v| == |files| && forall r :: 0 <= r < |v| ==> v[r] == |files[r]|
  {
    seq(|files|, r requires 0 <= r < |files| => |files[r]|)
  }

  lemma MergeProgress(files: seq<seq<Entry>>, done: seq<nat>, next: seq<nat>, t: Term)
    requires InFiles(files, done) && MovedOn(files, done, next, t, |files|) && IsSmallest(files, done, t)
    ensures Count(done) < Count(next) <= Count(Sizes(files))
  {
    var s :| 0 <= s < |files| && Shows(files, done, s, t);
    assert done[s] < next[s];
    CountMonotone(done, next);
    CountMonotone(next, Sizes(files));
  }

  /** The k-way merge: whatever the cuts, the records are the inverted index of the
      whole corpus. */
  method MergeSegments(files: seq<seq<Entry>>, ghost docs: seq<Document>, ghost cuts: seq<nat>)
    returns (records: seq<Entry>)
    requires AreSegments(docs, |docs|, cuts, files)
    ensures IsInverted(docs, 0, |docs|, records)
  {
    hide Reading, MovedOn, Merging, AreSegments, IsInverted, Gathered, Count, Shows;
    var readers;
    ghost var done;
    readers, done := OpenReaders(files);
    ReadersInFiles(readers, files, done);
    records := [];
    NothingMerged(docs, files, done);
    while true
      invariant fresh(readers) && Reading(readers, files, done) && InFiles(files, done)
      invariant Merging(docs, files, done, records)
      decreases Count(Sizes(files)) - Count(done)
    {
      var found, term := SmallestTerm(readers, files, done);
      if !found {
        break;
      }
      var merged;
      ghost var next;
      merged, next := TakeTerm(readers, term, files, done);
      ReadersInFiles(readers, files, next);
      MergeRound(docs, cuts, files, done, next, records, term);
      MergeProgress(files, done, next, term);
      records := records + [Entry(term, merged)];
      done := next;
    }
    MergeDone(docs, cuts, files, done, records);
  }
}
