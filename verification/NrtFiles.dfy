/** Files of an index opened on segments whose names the counter is still to reach: the
    runs that overwrite, lose and double documents, and the condition that shuts them out. */
module NrtFiles {
  import opened Common
  import opened StableSort
  import opened MergePolicy
  import opened NrtState
  import opened NrtRuns

  // ---- flushes that fail use numbers up ----

  function Copies(doc: Doc, n: nat): (docs: seq<Doc>)
    ensures |docs| == n && forall i :: 0 <= i < n ==> docs[i] == doc
  {
    seq(n, i => doc)
  }

  /** Adds that each flush, the builder failing every time. */
  function FailingAdds(doc: Doc, n: nat): (events: seq<Event>)
    ensures |events| == n
  {
    if n == 0 then [] else FailingAdds(doc, n - 1) + [Add(doc, true, false)]
  }

  lemma RunExtends(g: Settings, initial: seq<Segment>, events: seq<Event>, e: Event)
    ensures AfterAll(g, initial, events + [e]) == After(g, AfterAll(g, initial, events), e)
  {
    hide After;
    assert (events + [e])[..|events|] == events;
  }

  /** Each has written the buffer under the next number before the builder was tried. */
  ghost predicate UsedUp(s: State, initial: seq<Segment>, doc: Doc, n: nat)
  {
    Counted(s, initial, doc, n) && FilesUsed(s.disk, initial, doc, n)
  }

  ghost predicate Counted(s: State, initial: seq<Segment>, doc: Doc, n: nat)
  {
    && s.segments == initial && s.nextId == |initial| + n && s.buffer == Copies(doc, n)
    && !s.merging && s.jobs == [] && s.added == Concat(initial) + Copies(doc, n)
    && (0 < n ==> s.nextId - 1 in s.disk && s.disk[s.nextId - 1] == s.buffer)
  }

  ghost predicate FilesUsed(disk: map<int, seq<Doc>>, initial: seq<Segment>, doc: Doc, n: nat)
  {
    && (forall c :: c in initial ==> c.id in disk)
    && forall c :: c in initial ==>
         disk[c.id] == if |initial| <= c.id < |initial| + n then Copies(doc, c.id - |initial| + 1) else c.docs
  }

  lemma {:induction false} NumbersUsedUp(g: Settings, initial: seq<Segment>, doc: Doc, n: nat)
    ensures var s := AfterAll(g, initial, FailingAdds(doc, n));
      Counted(s, initial, doc, n) && (DistinctIds(initial) ==> FilesUsed(s.disk, initial, doc, n))
  {
    hide DiskOf, Concat, DistinctIds, Copies;
    if n == 0 {
      if DistinctIds(initial) {
        DiskHolds(initial);
      }
      assert Concat(initial) + Copies(doc, 0) == Concat(initial);
      assert Copies(doc, 0) == [];
    } else {
      NumbersUsedUp(g, initial, doc, n - 1);
      RunExtends(g, initial, FailingAdds(doc, n - 1), Add(doc, true, false));
      OneMoreUsed(g, AfterAll(g, initial, FailingAdds(doc, n - 1)), initial, doc, n - 1);
    }
  }

  lemma OneMoreUsed(g: Settings, s: State, initial: seq<Segment>, doc: Doc, n: nat)
    requires Counted(s, initial, doc, n)
    ensures var t := After(g, s, Add(doc, true, false));
      && Counted(t, initial, doc, n + 1)
      && (FilesUsed(s.disk, initial, doc, n) ==> FilesUsed(t.disk, initial, doc, n + 1))
  {
    hide Concat, Copies;
    OneCopyMore(initial, doc, n);
  }

  /** A live segment whose number the counter is still to reach has its source
      overwritten by the flush that takes the number. */
  lemma SourceOverwritten(g: Settings, initial: seq<Segment>, c: Segment, doc: Doc)
    requires c in initial && |initial| <= c.id && c.docs != [] && c.docs[0] != doc
    ensures !OnDisk(AfterAll(g, initial, FailingAdds(doc, c.id - |initial| + 1)))
  {
    hide AfterAll;
    var n := c.id - |initial| + 1;
    NumbersUsedUp(g, initial, doc, n);
    assert AfterAll(g, initial, FailingAdds(doc, n)).disk[c.id] == Copies(doc, n);
  }

  /** Live segments keep their files in every run exactly if no initial segment's number
      is still to come from the counter. */
  lemma KeptExactlyApart(g: Settings, initial: seq<Segment>)
    requires Openable(initial)
    ensures FilesApart(initial) <==> forall run :: OnDisk(AfterAll(g, initial, run))
  {
    hide AfterAll, OnDisk;
    if FilesApart(initial) {
      forall run
        ensures OnDisk(AfterAll(g, initial, run))
      {
        RunKeeps(g, initial, run);
      }
    } else {
      var c :| c in initial && |initial| <= c.id;
      var doc := Longer(c.docs);
      SourceOverwritten(g, initial, c, doc);
    }
  }

  // ---- merging them all ----

  /** How often a document stands in a list. */
  function Times(x: Doc, docs: seq<Doc>): nat
  {
    multiset(docs)[x]
  }

  lemma {:induction false} DocsInserted(c: Segment, segments: seq<Segment>)
    ensures Docs(Insert(c, segments, Size)) == multiset(c.docs) + Docs(segments)
  {
    if segments != [] && Size(segments[0]) < Size(c) {
      DocsInserted(c, segments[1..]);
    }
  }

  lemma {:induction false} DocsSorted(segments: seq<Segment>)
    ensures Docs(Sort(segments, Size)) == Docs(segments)
  {
    if segments != [] {
      DocsSorted(segments[1..]);
      DocsInserted(segments[0], Sort(segments[1..], Size));
    }
  }

  /** Sources that have no more of a document than the segments, and one that has less. */
  lemma {:induction false} SourcesLose(disk: map<int, seq<Doc>>, chosen: seq<Segment>, x: Doc, c: Segment)
    requires SourcesThere(disk, chosen)
    requires forall a :: a in chosen ==> Times(x, disk[a.id]) <= Times(x, a.docs)
    requires c in chosen ==> Times(x, disk[c.id]) < Times(x, c.docs)
    ensures Times(x, Sources(disk, chosen)) <= Docs(chosen)[x]
    ensures c in chosen ==> Times(x, Sources(disk, chosen)) < Docs(chosen)[x]
  {
    if chosen != [] {
      SourcesLose(disk, chosen[1..], x, c);
    }
  }

  /** Sources that have no less of a document than the segments, and one that has more. */
  lemma {:induction false} SourcesDouble(disk: map<int, seq<Doc>>, chosen: seq<Segment>, x: Doc, c: Segment)
    requires SourcesThere(disk, chosen)
    requires forall a :: a in chosen ==> Times(x, a.docs) <= Times(x, disk[a.id])
    requires c in chosen ==> Times(x, c.docs) < Times(x, disk[c.id])
    ensures Docs(chosen)[x] <= Times(x, Sources(disk, chosen))
    ensures c in chosen ==> Docs(chosen)[x] < Times(x, Sources(disk, chosen))
  {
    if chosen != [] {
      SourcesDouble(disk, chosen[1..], x, c);
    }
  }

  lemma CopiesTimes(doc: Doc, n: nat, x: Doc)
    ensures Times(x, Copies(doc, n)) == if x == doc then n else 0
  {
    if 0 < n {
      CopiesTimes(doc, n - 1, x);
      assert Copies(doc, n) == Copies(doc, n - 1) + [doc];
    }
  }

  /** One segment more than may be is one too many, and a merge takes them all. */
  function MergeAll(m: nat): Settings { Settings(1, Some(Policy(m + 1, m))) }

  /** The flush that succeeds: the buffer becomes a segment and a merge of all is planned. */
  lemma AllPlanned(s: State, doc: Doc)
    requires !s.merging && s.jobs == []
    ensures var t, u := After(MergeAll(|s.segments|), s, Add(doc, true, true)), FlushedState(s, doc);
      && t.segments == u.segments && t.buffer == [] && t.disk == u.disk && t.added == u.added
      && t.jobs == [Job(Sort(u.segments, Size), s.nextId + 1, Queued)]
  {
    hide Sort, AfterSchedule, AfterAdd;
    FlushNow(MergeAll(|s.segments|), s, doc);
    ScheduleAll(FlushedState(s, doc));
  }

  function FlushedState(s: State, doc: Doc): State
  {
    State(s.segments + [Segment(s.nextId, s.buffer + [doc])], [], s.tombstones, s.nextId + 1, s.merging, s.jobs,
          s.disk[s.nextId := s.buffer + [doc]], s.added + [doc])
  }

  lemma FlushNow(g: Settings, s: State, doc: Doc)
    ensures AfterAdd(g, s, doc, true, true) == AfterSchedule(g, FlushedState(s, doc))
  {
    hide AfterSchedule;
  }

  lemma OneCopyMore(initial: seq<Segment>, doc: Doc, n: nat)
    ensures Copies(doc, n) + [doc] == Copies(doc, n + 1)
    ensures (Concat(initial) + Copies(doc, n)) + [doc] == Concat(initial) + Copies(doc, n + 1)
  {
    hide Concat;
    var before := Concat(initial);
    assert (before + Copies(doc, n)) + [doc] == before + (Copies(doc, n) + [doc]);
  }

  lemma ScheduleAll(s: State)
    requires s.segments != [] && !s.merging
    ensures AfterSchedule(MergeAll(|s.segments| - 1), s) ==
      s.(merging := true, nextId := s.nextId + 1, jobs := s.jobs + [Job(Sort(s.segments, Size), s.nextId, Queued)])
  {
    hide Sort;
    assert Sort(s.segments, Size)[..|s.segments|] == Sort(s.segments, Size);
  }

  /** A merge of all live segments leaves one, of what their files say. */
  lemma AllMerged(g: Settings, s: State, id: nat)
    requires s.jobs == [Job(Sort(s.segments, Size), id, Queued)] && SourcesThere(s.disk, Sort(s.segments, Size))
    requires Sources(s.disk, Sort(s.segments, Size)) != []
    requires g.policy.Some? && 1 <= g.policy.value.maxSegments
    ensures AfterBuild(s, true).segments == s.segments
    ensures var t := AfterSwap(g, AfterBuild(s, true));
      && t.segments == [Segment(id, Sources(s.disk, Sort(s.segments, Size)))]
      && t.buffer == s.buffer && t.added == s.added
  {
    hide Sort, Sources, IdsOf, Kept, MaybeMerge;
    var plan := Sort(s.segments, Size);
    SortPermutes(s.segments, Size);
    forall c | c in s.segments
      ensures c.id in IdsOf(plan)
    {
      var i :| 0 <= i < |plan| && plan[i] == c;
    }
    NoneKept(s.segments, IdsOf(plan));
  }

  lemma {:induction false} NoneKept(segments: seq<Segment>, ids: set<int>)
    requires forall c :: c in segments ==> c.id in ids
    ensures Kept(segments, ids) == []
  {
    if segments != [] {
      NoneKept(segments[1..], ids);
    }
  }

  // ---- what is held of what was added ----

  ghost function Held(s: State): multiset<Doc>
  {
    multiset(s.buffer) + Docs(s.segments)
  }

  ghost predicate NoneLost(s: State)
  {
    multiset(s.added) <= Held(s)
  }

  ghost predicate NoneDoubled(s: State)
  {
    Held(s) <= multiset(s.added)
  }

  /** What can be searched can be searched after the next step. */
  ghost predicate NoneHidden(s: State, t: State)
  {
    Docs(s.segments) <= Docs(t.segments)
  }

  /** The run: numbers are used up to the one of `c`, the next flush succeeds, and all the
      segments are merged. */
  function LosingRun(initial: seq<Segment>, c: Segment, doc: Doc): seq<Event>
    requires |initial| <= c.id
  {
    FailingAdds(doc, c.id - |initial| + 1) + [Add(doc, true, true)] + [MergeBuild(true)]
  }

  /** What the file of one of the segments to be merged holds. */
  ghost predicate FileOf(disk: map<int, seq<Doc>>, a: Segment, doc: Doc)
  {
    a.id in disk && (disk[a.id] == a.docs || exists n: nat :: 0 < n && disk[a.id] == Copies(doc, n))
  }

  predicate Replaced(disk: map<int, seq<Doc>>, a: Segment)
  {
    a.id in disk && disk[a.id] != a.docs
  }

  lemma FilesAsWritten(disk: map<int, seq<Doc>>, s: State, initial: seq<Segment>, doc: Doc, n: nat)
    requires FilesUsed(s.disk, initial, doc, n) && disk == s.disk[|initial| + n := Copies(doc, n + 1)]
    ensures forall a :: a in initial + [Segment(|initial| + n, Copies(doc, n + 1))] ==> FileOf(disk, a, doc)
  {
    hide Concat, Copies;
    var m := |initial|;
    forall a | a in initial + [Segment(m + n, Copies(doc, n + 1))]
      ensures FileOf(disk, a, doc)
    {
      if a in initial && m <= a.id < m + n {
        assert disk[a.id] == Copies(doc, a.id - m + 1);
      }
    }
  }

  /** A file of copies of a document has no less of it than a segment without it, and no
      more of any other. */
  lemma FileTimes(disk: map<int, seq<Doc>>, a: Segment, doc: Doc, x: Doc)
    requires FileOf(disk, a, doc) && x != doc && (Replaced(disk, a) ==> doc !in a.docs)
    ensures Times(x, disk[a.id]) <= Times(x, a.docs) && Times(doc, a.docs) <= Times(doc, disk[a.id])
    ensures Replaced(disk, a) ==> Times(x, disk[a.id]) == 0 && Times(doc, a.docs) < Times(doc, disk[a.id])
  {
    hide Copies;
    if disk[a.id] != a.docs {
      var n: nat :| 0 < n && disk[a.id] == Copies(doc, n);
      CopiesTimes(doc, n, x);
      CopiesTimes(doc, n, doc);
    }
  }

  lemma {:induction false} InConcat(segments: seq<Segment>, c: Segment, x: Doc)
    requires c in segments && x in c.docs
    ensures x in Concat(segments)
  {
    if segments[0] != c {
      InConcat(segments[1..], c, x);
    }
  }

  /** Merging all, when the file of one has copies of a document in the place of its own. */
  lemma MergeLoses(g: Settings, s: State, id: nat, c: Segment, doc: Doc)
    requires s.jobs == [Job(Sort(s.segments, Size), id, Queued)]
    requires g.policy.Some? && 1 <= g.policy.value.maxSegments && c in s.segments
    requires forall a :: a in s.segments ==> FileOf(s.disk, a, doc)
    requires forall a :: a in s.segments && Replaced(s.disk, a) ==> doc !in a.docs
    requires c.docs != [] && Replaced(s.disk, c)
    ensures var t := AfterSwap(g, AfterBuild(s, true));
      && AfterBuild(s, true).segments == s.segments && t.added == s.added && t.buffer == s.buffer
      && Docs(t.segments)[c.docs[0]] < Docs(s.segments)[c.docs[0]] && Docs(s.segments)[doc] < Docs(t.segments)[doc]
  {
    hide Sort, Sources, AfterBuild, AfterSwap, Docs, FileOf;
    var plan, x := Sort(s.segments, Size), c.docs[0];
    SortPermutes(s.segments, Size);
    DocsSorted(s.segments);
    FilesMerged(s.disk, plan, c, doc);
    AllMerged(g, s, id);
    OneSegment(Segment(id, Sources(s.disk, plan)));
  }

  lemma FilesMerged(disk: map<int, seq<Doc>>, plan: seq<Segment>, c: Segment, doc: Doc)
    requires c in plan && forall a :: a in plan ==> FileOf(disk, a, doc)
    requires forall a :: a in plan && Replaced(disk, a) ==> doc !in a.docs
    requires c.docs != [] && Replaced(disk, c)
    ensures SourcesThere(disk, plan) && Sources(disk, plan) != []
    ensures multiset(Sources(disk, plan))[c.docs[0]] < Docs(plan)[c.docs[0]]
    ensures Docs(plan)[doc] < multiset(Sources(disk, plan))[doc]
  {
    hide Sources, Docs, FileOf;
    var x := c.docs[0];
    assert x in c.docs && x in multiset(c.docs) && x != doc;
    assert SourcesThere(disk, plan) by {
      InDisk(disk, plan, doc);
    }
    forall a | a in plan
      ensures Times(x, disk[a.id]) <= Times(x, a.docs) && Times(doc, a.docs) <= Times(doc, disk[a.id])
    {
      FileTimes(disk, a, doc, x);
    }
    FileTimes(disk, c, doc, x);
    SourcesLose(disk, plan, x, c);
    SourcesDouble(disk, plan, doc, c);
  }

  lemma InDisk(disk: map<int, seq<Doc>>, plan: seq<Segment>, doc: Doc)
    requires forall a :: a in plan ==> FileOf(disk, a, doc)
    ensures SourcesThere(disk, plan)
  {
  }

  lemma AddedIsAll(initial: seq<Segment>, doc: Doc, n: nat)
    ensures multiset(Concat(initial) + Copies(doc, n + 1)) ==
      Docs(initial + [Segment(|initial| + n, Copies(doc, n + 1))])
  {
    hide Docs, Concat, Copies;
    var c := Segment(|initial| + n, Copies(doc, n + 1));
    ConcatDocs(initial);
    DocsAppend(initial, [c]);
    OneSegment(c);
  }

  /** The states of the run: all planned for a merge, and merged. */
  lemma RunStates(initial: seq<Segment>, c: Segment, doc: Doc)
    requires DistinctIds(initial) && |initial| <= c.id
    ensures var g, n, run := MergeAll(|initial|), c.id - |initial| + 1, LosingRun(initial, c, doc);
      var s0 := AfterAll(g, initial, FailingAdds(doc, n));
      var s1 := After(g, s0, Add(doc, true, true));
      && UsedUp(s0, initial, doc, n)
      && AfterAll(g, initial, run) == AfterBuild(s1, true)
      && AfterAll(g, initial, run + [MergeSwap]) == AfterSwap(g, AfterBuild(s1, true))
  {
    hide AfterAll, Concat, AfterAdd, AfterBuild, AfterSwap, Counted, FilesUsed, FailingAdds;
    var g, n := MergeAll(|initial|), c.id - |initial| + 1;
    NumbersUsedUp(g, initial, doc, n);
    RunExtends(g, initial, FailingAdds(doc, n), Add(doc, true, true));
    RunExtends(g, initial, FailingAdds(doc, n) + [Add(doc, true, true)], MergeBuild(true));
    RunExtends(g, initial, LosingRun(initial, c, doc), MergeSwap);
  }

  /** A document of the overwritten segment is lost and out of sight, and the one that
      was added is doubled. */
  lemma RunLoses(initial: seq<Segment>, c: Segment, doc: Doc)
    requires Openable(initial) && c in initial && |initial| <= c.id && doc !in Concat(initial)
    ensures var g, run := MergeAll(|initial|), LosingRun(initial, c, doc);
      var s, t := AfterAll(g, initial, run), AfterAll(g, initial, run + [MergeSwap]);
      !Conserved(t) && !NoneLost(t) && !NoneDoubled(t) && !NoneHidden(s, t)
  {
    hide AfterAll, Concat, After, AfterBuild, AfterSwap, Docs, LosingRun, UsedUp, FlushedState;
    var g, n := MergeAll(|initial|), c.id - |initial| + 1;
    var s0 := AfterAll(g, initial, FailingAdds(doc, n));
    RunStates(initial, c, doc);
    FlushedLoses(s0, initial, c, doc, n);
  }

  lemma FlushedLoses(s: State, initial: seq<Segment>, c: Segment, doc: Doc, n: nat)
    requires UsedUp(s, initial, doc, n) && 0 < n && c in initial && c.id == |initial| + n - 1
    requires c.docs != [] && doc !in Concat(initial)
    ensures var g := MergeAll(|initial|);
      var u := AfterBuild(After(g, s, Add(doc, true, true)), true);
      var t := AfterSwap(g, u);
      !Conserved(t) && !NoneLost(t) && !NoneDoubled(t) && !NoneHidden(u, t)
  {
    hide Concat, Sort, Copies, After, AfterBuild, AfterSwap, FilesUsed, Docs, FileOf, Replaced;
    var g, u := MergeAll(|initial|), FlushedState(s, doc);
    AllPlanned(s, doc);
    FlushedFiles(s, initial, c, doc, n);
    MergeLoses(g, After(g, s, Add(doc, true, true)), |initial| + n + 1, c, doc);
  }

  lemma FlushedFiles(s: State, initial: seq<Segment>, c: Segment, doc: Doc, n: nat)
    requires UsedUp(s, initial, doc, n) && 0 < n && c in initial && c.id == |initial| + n - 1
    requires c.docs != [] && doc !in Concat(initial)
    ensures var u := FlushedState(s, doc);
      && c in u.segments && Replaced(u.disk, c)
      && (forall a :: a in u.segments ==> FileOf(u.disk, a, doc))
      && (forall a :: a in u.segments && Replaced(u.disk, a) ==> doc !in a.docs)
      && multiset(u.added) == Docs(u.segments)
  {
    hide Concat, Copies, FilesUsed, Docs, FileOf, Replaced;
    var newest := Segment(|initial| + n, Copies(doc, n + 1));
    OneCopyMore(initial, doc, n);
    FilesAsWritten(FlushedState(s, doc).disk, s, initial, doc, n);
    OverwrittenFile(s.disk, initial, doc, n, c);
    ReplacedWithout(FlushedState(s, doc).disk, initial, newest, doc);
    StillReplaced(s.disk, c, |initial| + n, Copies(doc, n + 1));
    AddedIsAll(initial, doc, n);
  }

  lemma OverwrittenFile(disk: map<int, seq<Doc>>, initial: seq<Segment>, doc: Doc, n: nat, c: Segment)
    requires FilesUsed(disk, initial, doc, n) && 0 < n && c in initial && c.id == |initial| + n - 1
    requires c.docs != [] && doc !in Concat(initial)
    ensures Replaced(disk, c)
  {
    hide Concat;
    NotAmong(initial, c, doc);
    assert disk[c.id] == Copies(doc, n) && Copies(doc, n)[0] == doc;
    assert c.docs[0] in c.docs;
  }

  lemma StillReplaced(disk: map<int, seq<Doc>>, c: Segment, id: int, text: seq<Doc>)
    requires Replaced(disk, c) && c.id != id
    ensures Replaced(disk[id := text], c)
  {
  }

  lemma ReplacedWithout(disk: map<int, seq<Doc>>, initial: seq<Segment>, newest: Segment, doc: Doc)
    requires doc !in Concat(initial) && newest.id in disk && disk[newest.id] == newest.docs
    ensures forall a :: a in initial + [newest] && Replaced(disk, a) ==> doc !in a.docs
  {
    hide Concat;
    forall a | a in initial + [newest] && Replaced(disk, a)
      ensures doc !in a.docs
    {
      NotAmong(initial, a, doc);
    }
  }

  lemma NotAmong(segments: seq<Segment>, c: Segment, doc: Doc)
    requires c in segments && doc !in Concat(segments)
    ensures doc !in c.docs
  {
    if doc in c.docs {
      InConcat(segments, c, doc);
    }
  }

  /** A document with an id longer than all of them. */
  function Longer(docs: seq<Doc>): (doc: Doc)
    ensures forall d :: d in docs ==> |d.id| < |doc.id|
  {
    if docs == [] then Doc("x", "")
    else
      var rest := Longer(docs[1..]);
      if |docs[0].id| < |rest.id| then rest else Doc(docs[0].id + "x", "")
  }

  /** In every run, every document added is held exactly as often as it was added, none is
      lost, none is doubled and none goes out of sight: each exactly if no initial
      segment's number is still to come from the counter. */
  lemma SafeExactlyApart(initial: seq<Segment>)
    requires Openable(initial)
    ensures FilesApart(initial) <==> forall g: Settings, run: seq<Event> :: Conserved(AfterAll(g, initial, run))
    ensures FilesApart(initial) <==> forall g: Settings, run: seq<Event> :: NoneLost(AfterAll(g, initial, run))
    ensures FilesApart(initial) <==> forall g: Settings, run: seq<Event> :: NoneDoubled(AfterAll(g, initial, run))
    ensures FilesApart(initial) <==> forall g: Settings, run: seq<Event>, e: Event ::
      NoneHidden(AfterAll(g, initial, run), AfterAll(g, initial, run + [e]))
  {
    hide AfterAll, Conserved, NoneLost, NoneDoubled, NoneHidden, Openable;
    if FilesApart(initial) {
      forall g: Settings, run: seq<Event>
        ensures Conserved(AfterAll(g, initial, run))
        ensures NoneLost(AfterAll(g, initial, run)) && NoneDoubled(AfterAll(g, initial, run))
      {
        ApartIsSafe(g, initial, run, Flush(true));
      }
      forall g: Settings, run: seq<Event>, e: Event
        ensures NoneHidden(AfterAll(g, initial, run), AfterAll(g, initial, run + [e]))
      {
        ApartIsSafe(g, initial, run, e);
      }
    } else {
      var c :| c in initial && |initial| <= c.id;
      RunLoses(initial, c, Longer(Concat(initial)));
    }
  }

  lemma ApartIsSafe(g: Settings, initial: seq<Segment>, run: seq<Event>, e: Event)
    requires Openable(initial) && FilesApart(initial)
    ensures var s := AfterAll(g, initial, run);
      Conserved(s) && NoneLost(s) && NoneDoubled(s) && NoneHidden(s, AfterAll(g, initial, run + [e]))
  {
    hide AfterAll, After, Docs;
    RunKeeps(g, initial, run);
    RunExtends(g, initial, run, e);
    StepKeeps(g, AfterAll(g, initial, run), e);
  }

  /** The shortest case: opened over a segment stored under number one, the index gives its
      first flush that number, and merging the two reads the new file twice. */
  lemma DocumentLost(a: Doc, d: Doc)
    ensures var g := Settings(1, Some(Policy(2, 1)));
      var s := AfterAll(g, [Segment(1, [a])], [Add(d, false, true), MergeBuild(true), MergeSwap]);
      s.added == [a, d] && s.segments == [Segment(2, [d, d])] && s.buffer == []
  {
    hide Start, AfterAdd, AfterBuild, AfterSwap;
    var g, initial := Settings(1, Some(Policy(2, 1))), [Segment(1, [a])];
    var events := [Add(d, false, true), MergeBuild(true), MergeSwap];
    var s1, s2 := AfterAll(g, initial, events[..1]), AfterAll(g, initial, events[..2]);
    assert events[..1][..0] == [] && AfterAll(g, initial, []) == Start(initial);
    assert s1 == After(g, AfterAll(g, initial, []), events[0]);
    assert events[..2][..1] == events[..1] && s2 == After(g, s1, events[1]);
    LostAtFlush(a, d);
    LostAtBuild(s1, d);
    LostAtSwap(s2, d);
  }

  /** Two segments under number one, of which the file has the second's text. */
  ghost predicate Overwritten(s: State, a: Doc, d: Doc)
  {
    s.segments == [Segment(1, [a]), Segment(1, [d])] && s.buffer == [] && s.added == [a, d]
  }

  lemma LostAtFlush(a: Doc, d: Doc)
    ensures var s := After(Settings(1, Some(Policy(2, 1))), Start([Segment(1, [a])]), Add(d, false, true));
      Overwritten(s, a, d) && s.jobs == [Job(s.segments, 2, Queued)] && s.disk == map[1 := [d]]
  {
    var c := Segment(1, [a]);
    assert [c][..0] == [] && [c][1..] == [];
    assert DiskOf([c]) == DiskOf([])[1 := [a]] == map[1 := [a]];
    assert Concat([c]) == [a] + Concat([]) == [a];
    assert [a] + [d] == [a, d] && [c] + [Segment(1, [d])] == [c, Segment(1, [d])] && [] + [d] == [d];
    assert map[1 := [a]][1 := [d]] == map[1 := [d]];
    PlanOfTwo(c, Segment(1, [d]));
  }

  lemma LostAtBuild(s: State, d: Doc)
    requires |s.segments| == 2 && s.segments[0].id == 1 && s.segments[1].id == 1
    requires s.jobs == [Job(s.segments, 2, Queued)] && s.disk == map[1 := [d]]
    ensures AfterBuild(s, true) ==
      s.(jobs := [Job(s.segments, 2, Built(Segment(2, [d, d])))], disk := map[1 := [d], 2 := [d, d]])
  {
    var rest := s.segments[1..];
    assert Sources(s.disk, rest) == [d] + Sources(s.disk, []);
    assert Sources(s.disk, s.segments) == [d] + Sources(s.disk, rest) == [d, d];
  }

  lemma LostAtSwap(s: State, d: Doc)
    requires |s.segments| == 2 && s.segments[0].id == 1 && s.segments[1].id == 1
    requires s.jobs == [Job(s.segments, 2, Built(Segment(2, [d, d])))]
    ensures var t := AfterSwap(Settings(1, Some(Policy(2, 1))), s);
      t.segments == [Segment(2, [d, d])] && t.buffer == s.buffer && t.added == s.added
  {
    hide IdsOf;
    assert s.segments[0].id in IdsOf(s.segments);
    assert Kept(s.segments[1..], IdsOf(s.segments)) == [];
    assert Kept(s.segments, IdsOf(s.segments)) == [];
  }

  lemma PlanOfTwo(a: Segment, b: Segment)
    requires |a.docs| == |b.docs|
    ensures MaybeMerge(Policy(2, 1), [a, b]) == Some([a, b])
  {
    assert [a, b][1..] == [b] && [b][1..] == [];
    assert Sort([b], Size) == [b];
    assert Sort([a, b], Size) == Insert(a, [b], Size) == [a, b];
    assert [a, b][..2] == [a, b];
  }
}
