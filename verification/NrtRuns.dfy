/** Whole runs of the near-real-time index: conservation, convergence of merging, and the
    large base segment that is never merged away. */
module NrtRuns {
  import opened MergePolicy
  import opened NrtState

  /** The source files of some segments. */
  function DiskOf(segments: seq<Segment>): map<int, seq<Doc>>
  {
    if segments == [] then map[]
    else DiskOf(segments[..|segments| - 1])[segments[|segments| - 1].id := segments[|segments| - 1].docs]
  }

  lemma {:induction false} DiskHolds(segments: seq<Segment>)
    requires DistinctIds(segments)
    ensures forall c :: c in segments ==> c.id in DiskOf(segments) && DiskOf(segments)[c.id] == c.docs
  {
    if segments != [] {
      var before, last := segments[..|segments| - 1], segments[|segments| - 1];
      DiskHolds(before);
      assert segments == before + [last];
    }
  }

  /** The index opened on segments already built. The counter that names new files starts
      at their number, whatever they are called. */
  function Start(initial: seq<Segment>): State
  {
    State(initial, [], {}, |initial|, false, [], DiskOf(initial), Concat(initial))
  }

  /** Segments the builder made, each with files of its own. */
  ghost predicate Openable(initial: seq<Segment>)
  {
    DistinctIds(initial) && forall c :: c in initial ==> c.docs != []
  }

  /** No file name of an initial segment is still to come from the counter. */
  predicate FilesApart(initial: seq<Segment>)
  {
    forall c :: c in initial ==> c.id < |initial|
  }

  function AfterAll(g: Settings, initial: seq<Segment>, events: seq<Event>): State
  {
    if events == [] then Start(initial)
    else After(g, AfterAll(g, initial, events[..|events| - 1]), events[|events| - 1])
  }

  lemma StartKeeps(g: Settings, initial: seq<Segment>)
    requires Openable(initial)
    ensures FilesApart(initial) ==> Inv(g, Start(initial))
  {
    hide Docs, Concat, DiskOf;
    ConcatDocs(initial);
    DiskHolds(initial);
    assert multiset(Start(initial).buffer) == multiset{};
  }

  /** Safety: after any interleaving of adds, flushes, deletes and merge steps, whichever
      builds fail, every document added is in the buffer or in exactly one live segment,
      every live segment has its file, and at most one merge is in flight. Without failed
      merges, one is in flight whenever there are too many segments. */
  lemma {:induction false} RunKeeps(g: Settings, initial: seq<Segment>, events: seq<Event>)
    requires Openable(initial) && FilesApart(initial)
    ensures Inv(g, AfterAll(g, initial, events))
    ensures Merges(g) && Settled(g, Start(initial)) && (forall e :: e in events && e.MergeBuild? ==> e.built) ==>
      Settled(g, AfterAll(g, initial, events))
  {
    hide Inv, Settled, Start, After, Openable;
    if events == [] {
      StartKeeps(g, initial);
    } else {
      var before, e := events[..|events| - 1], events[|events| - 1];
      assert events == before + [e];
      RunKeeps(g, initial, before);
      StepKeeps(g, AfterAll(g, initial, before), e);
    }
  }

  // ---- convergence ----

  predicate Converging(g: Settings)
  {
    g.policy.Some? ==> 2 <= g.policy.value.mergeFactor && 1 <= g.policy.value.maxSegments
  }

  /** What the merge worker does next. */
  function NextMerge(s: State): Event
    requires s.jobs != []
  {
    match s.jobs[0].phase
    case Queued => MergeBuild(true)
    case Built(_) => MergeSwap
    case Removing(_) => MergeRemove
  }

  function StepsLeft(job: Job): nat
  {
    match job.phase
    case Queued => 2
    case Built(_) => 1
    case Removing(n) => if n < |job.chosen| then 1 + |job.chosen| - n else 1
  }

  function AllStepsLeft(jobs: seq<Job>): nat
  {
    if jobs == [] then 0 else StepsLeft(jobs[0]) + AllStepsLeft(jobs[1..])
  }

  lemma MergeStepProgresses(g: Settings, s: State)
    requires Inv(g, s) && Settled(g, s) && Converging(g) && s.jobs != []
    ensures var t := After(g, s, NextMerge(s));
      && Inv(g, t) && Settled(g, t) && Docs(t.segments) == Docs(s.segments)
      && (|t.segments| < |s.segments| || (t.segments == s.segments && AllStepsLeft(t.jobs) < AllStepsLeft(s.jobs)))
  {
    hide Inv, Settled, Docs, AfterBuild, AfterSwap, AfterRemove, AllStepsLeft;
    StepKeeps(g, s, NextMerge(s));
    match s.jobs[0].phase {
      case Queued => BuildProgresses(g, s);
      case Built(_) => SwapProgresses(g, s);
      case Removing(_) => RemoveProgresses(g, s);
    }
  }

  lemma BuildProgresses(g: Settings, s: State)
    requires Inv(g, s) && Converging(g) && s.jobs != [] && s.jobs[0].phase.Queued?
    ensures var t := AfterBuild(s, true);
      t.segments == s.segments && AllStepsLeft(t.jobs) < AllStepsLeft(s.jobs)
  {
    hide Docs, Concat, Sources;
    var job := s.jobs[0];
    assert InFlight(job) && FlightOk(g, s, job);
    BuildKeeps(g, s, true);
  }

  lemma SwapProgresses(g: Settings, s: State)
    requires Inv(g, s) && Converging(g) && s.jobs != [] && s.jobs[0].phase.Built?
    ensures Docs(AfterSwap(g, s).segments) == Docs(s.segments) && |AfterSwap(g, s).segments| < |s.segments|
  {
    hide Docs, Concat, MaybeMerge, Kept, IdsOf, AfterSwap;
    var job := s.jobs[0];
    assert InFlight(job) && FlightOk(g, s, job);
    SwapKeeps(g, s);
  }

  lemma RemoveProgresses(g: Settings, s: State)
    requires Inv(g, s) && s.jobs != [] && s.jobs[0].phase.Removing?
    ensures var t := AfterRemove(s);
      t.segments == s.segments && AllStepsLeft(t.jobs) < AllStepsLeft(s.jobs)
  {
    hide Docs, Concat;
    var job := s.jobs[0];
    assert !InFlight(job) && RemovalOk(s, job);
  }

  /** Left alone with a builder that works, the merge worker brings the segments down to
      the limit, round after round, with no further flush, and loses no document. */
  ghost function MergedOut(g: Settings, s: State): (t: State)
    requires Inv(g, s) && Settled(g, s) && Converging(g)
    ensures Inv(g, t) && t.jobs == [] && Docs(t.segments) == Docs(s.segments)
    ensures g.policy.Some? ==> |t.segments| <= g.policy.value.maxSegments
    decreases |s.segments|, AllStepsLeft(s.jobs)
  {
    if s.jobs == [] then s
    else
      MergeStepProgresses(g, s);
      MergedOut(g, After(g, s, NextMerge(s)))
  }

  /** One undisturbed round lowers the number of segments exactly when it merges at least
      two; a merge factor of one rebuilds the smallest segment again and again. */
  lemma RoundLowers(g: Settings, s: State)
    requires Inv(g, s) && s.jobs == [] && g.policy.Some? && 1 <= g.policy.value.mergeFactor
    requires g.policy.value.maxSegments < |s.segments|
    ensures var t := AfterSwap(g, AfterBuild(AfterSchedule(g, s), true));
      && (|t.segments| < |s.segments| <==> 2 <= g.policy.value.mergeFactor && 2 <= |s.segments|)
      && (g.policy.value.mergeFactor == 1 ==> |t.segments| == |s.segments| && t.merging)
  {
    hide Docs, Concat, MaybeMerge, Sources, Kept, IdsOf;
    ScheduleKeeps(g, s);
    PlanIsSmallest(g.policy.value, s.segments);
    var u := AfterSchedule(g, s);
    BuildKeeps(g, u, true);
    SwapKeeps(g, AfterBuild(u, true));
  }

  // ---- the base segment ----

  lemma {:induction false} TwoMembers(segments: seq<Segment>, c: Segment, d: Segment)
    requires c in segments && d in segments && c != d
    ensures |c.docs| + |d.docs| <= |Docs(segments)|
  {
    if segments[0] == c {
      DocsOfMember(segments[1..], d);
    } else if segments[0] == d {
      DocsOfMember(segments[1..], c);
    } else {
      TwoMembers(segments[1..], c, d);
    }
  }

  /** A live segment that no merge in flight has chosen. */
  ghost predicate Untouched(s: State, c: Segment)
  {
    c in s.segments && forall i :: 0 <= i < |s.jobs| && InFlight(s.jobs[i]) ==> c !in s.jobs[i].chosen
  }

  lemma ScheduleSpares(g: Settings, s: State, c: Segment)
    requires Inv(g, s) && Untouched(s, c)
    requires g.policy.Some? ==> g.policy.value.mergeFactor <= g.policy.value.maxSegments
    requires |s.added| < 2 * |c.docs|
    ensures Untouched(AfterSchedule(g, s), c)
  {
    hide Docs, MaybeMerge;
    if g.policy.Some? && !s.merging {
      PlanIsSmallest(g.policy.value, s.segments);
    }
    if g.policy.Some? && !s.merging && g.policy.value.maxSegments < |s.segments| {
      forall d | d in s.segments && d != c
        ensures |d.docs| < |c.docs|
      {
        TwoMembers(s.segments, c, d);
        assert |Docs(s.segments)| <= |multiset(s.added)|;
      }
      LargestChosen(g.policy.value, s.segments, c);
    }
  }

  /** With a merge factor up to the segment limit, a segment larger than all the other
      documents together stays live and unchosen, and so keeps its file: its readers
      elsewhere never lose it. */
  lemma BaseSurvives(g: Settings, s: State, c: Segment, e: Event)
    requires Inv(g, s) && Untouched(s, c)
    requires g.policy.Some? ==> g.policy.value.mergeFactor <= g.policy.value.maxSegments
    requires |s.added| + (if e.Add? then 1 else 0) < 2 * |c.docs|
    ensures Untouched(After(g, s, e), c)
    ensures c.id in After(g, s, e).disk && After(g, s, e).disk[c.id] == c.docs
  {
    hide Inv, AfterFlush, AfterSwap, AfterBuild, AfterRemove;
    StepKeeps(g, s, e);
    match e {
      case Add(doc, intervalUp, built) =>
        AddKeeps(g, s, doc);
        FlushSpares(g, s.(buffer := s.buffer + [doc], added := s.added + [doc]), c, built);
      case Flush(built) =>
        FlushSpares(g, s, c, built);
      case Delete(id) =>
      case MergeBuild(built) =>
        BuildSpares(s, c, built);
      case MergeSwap =>
        SwapSpares(g, s, c);
      case MergeRemove =>
        RemoveSpares(s, c);
    }
    LiveOnDisk(g, After(g, s, e), c);
  }

  lemma LiveOnDisk(g: Settings, s: State, c: Segment)
    requires Inv(g, s) && c in s.segments
    ensures c.id in s.disk && s.disk[c.id] == c.docs
  {
  }

  lemma BuildSpares(s: State, c: Segment, built: bool)
    requires Untouched(s, c)
    ensures Untouched(AfterBuild(s, built), c)
  {
    hide Sources, SourcesThere;
  }

  lemma RemoveSpares(s: State, c: Segment)
    requires Untouched(s, c)
    ensures Untouched(AfterRemove(s), c)
  {
  }

  lemma FlushSpares(g: Settings, s: State, c: Segment, built: bool)
    requires Inv(g, s) && Untouched(s, c)
    requires g.policy.Some? ==> g.policy.value.mergeFactor <= g.policy.value.maxSegments
    requires |s.added| < 2 * |c.docs|
    ensures Untouched(AfterFlush(g, s, built), c) && AfterFlush(g, s, built).added == s.added
  {
    hide Inv, Docs, Concat, MaybeMerge;
    if s.buffer != [] && built {
      var id := s.nextId;
      var written := s.(nextId := id + 1, disk := s.disk[id := s.buffer]);
      WriteKeeps(g, s, s.buffer);
      UnusedNumber(g, s);
      PublishKeeps(g, written, id);
      ScheduleSpares(g, written.(segments := s.segments + [Segment(id, s.buffer)], buffer := []), c);
    }
  }

  lemma SwapSpares(g: Settings, s: State, c: Segment)
    requires Inv(g, s) && Untouched(s, c)
    requires g.policy.Some? ==> g.policy.value.mergeFactor <= g.policy.value.maxSegments
    requires |s.added| < 2 * |c.docs|
    ensures Untouched(AfterSwap(g, s), c)
  {
    hide Docs, Concat, MaybeMerge, IdsOf;
    if s.jobs != [] && s.jobs[0].phase.Built? {
      var job := s.jobs[0];
      SwappedKeeps(g, s);
      assert forall d :: d in job.chosen ==> d.id != c.id;
      ScheduleSpares(g, Swapped(s), c);
    }
  }

  lemma AddedGrows(g: Settings, s: State, e: Event)
    ensures |After(g, s, e).added| == |s.added| + if e.Add? then 1 else 0
  {
  }

  /** So over a whole run: an initial segment with more documents than everything else
      there is at the end is live and unchosen all along. */
  lemma {:induction false} BaseNeverMerged(g: Settings, initial: seq<Segment>, events: seq<Event>, c: Segment)
    requires c in initial && Openable(initial) && FilesApart(initial)
    requires g.policy.Some? ==> g.policy.value.mergeFactor <= g.policy.value.maxSegments
    requires |AfterAll(g, initial, events).added| < 2 * |c.docs|
    ensures Untouched(AfterAll(g, initial, events), c)
  {
    hide Inv, After, Openable;
    if events != [] {
      var before, e := events[..|events| - 1], events[|events| - 1];
      AddedGrows(g, AfterAll(g, initial, before), e);
      BaseNeverMerged(g, initial, before, c);
      RunKeeps(g, initial, before);
      BaseSurvives(g, AfterAll(g, initial, before), c, e);
    }
  }
}
