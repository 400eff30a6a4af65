/** What each step of the near-real-time index does, field by field, and what follows for
    whole runs: which ids are deleted, what a flush makes searchable, which files are left. */
module NrtLaws {
  import opened MergePolicy
  import opened NrtState
  import opened NrtRuns

  // ---- steps ----

  /** A document goes to the end of the buffer, and with it the buffer is flushed if it is
      full or the interval has passed. */
  lemma AddDoes(g: Settings, s: State, doc: Doc, intervalUp: bool, built: bool)
    ensures var t, more := After(g, s, Add(doc, intervalUp, built)), s.buffer + [doc];
      && t.added == s.added + [doc] && t.tombstones == s.tombstones
      && (|more| < g.flushThreshold && !intervalUp ==>
            t.buffer == more && t.segments == s.segments && t.disk == s.disk && t.jobs == s.jobs &&
            t.nextId == s.nextId)
      && (g.flushThreshold <= |more| || intervalUp ==>
            && t.buffer == (if built then [] else more)
            && t.segments == (if built then s.segments + [Segment(s.nextId, more)] else s.segments)
            && t.disk == s.disk[s.nextId := more])
  {
    hide MaybeMerge;
  }

  lemma AddIs(g: Settings, s: State, doc: Doc, intervalUp: bool, built: bool)
    ensures var more := s.(buffer := s.buffer + [doc], added := s.added + [doc]);
      After(g, s, Add(doc, intervalUp, built)) ==
      if |more.buffer| >= g.flushThreshold || intervalUp then AfterFlush(g, more, built) else more
  {
  }

  /** The buffer becomes a segment under the next number; a build that fails uses the number
      up and leaves the buffer. */
  lemma FlushDoes(g: Settings, s: State, built: bool)
    ensures var t := After(g, s, Flush(built));
      && t.added == s.added && t.tombstones == s.tombstones
      && (s.buffer == [] ==> t == s)
      && (s.buffer != [] ==>
            && t.buffer == (if built then [] else s.buffer)
            && t.segments == (if built then s.segments + [Segment(s.nextId, s.buffer)] else s.segments)
            && t.disk == s.disk[s.nextId := s.buffer]
            && (!built ==> t.nextId == s.nextId + 1 && t.jobs == s.jobs && t.merging == s.merging))
  {
    hide MaybeMerge;
  }

  ghost predicate Submits(g: Settings, s: State, t: State)
  {
    if g.policy.Some? && !s.merging && g.policy.value.maxSegments < |s.segments| then
      && t.merging && t.nextId == s.nextId + 1
      && |t.jobs| == |s.jobs| + 1 && t.jobs[..|s.jobs|] == s.jobs
      && var job := t.jobs[|s.jobs|];
         job.id == s.nextId && job.phase == Queued && IsPlan(g.policy.value, s.segments, job.chosen)
    else t == s
  }

  /** A merge is submitted exactly if none is in flight and there are too many segments: of
      the smallest, as many as the factor or all, under the next number. */
  lemma ScheduleDoes(g: Settings, s: State)
    requires DistinctIds(s.segments)
    ensures var t := AfterSchedule(g, s);
      && Submits(g, s, t)
      && t.segments == s.segments && t.buffer == s.buffer && t.disk == s.disk
      && t.added == s.added && t.tombstones == s.tombstones
  {
    hide MaybeMerge;
    if g.policy.Some? {
      PlanIsSmallest(g.policy.value, s.segments);
    }
  }

  /** The smallest segments, each once. */
  ghost predicate IsPlan(p: Policy, segments: seq<Segment>, chosen: seq<Segment>)
  {
    && |chosen| == (if p.mergeFactor <= |segments| then p.mergeFactor else |segments|) && DistinctIds(chosen)
    && (forall c :: c in chosen ==> c in segments)
    && forall c, d :: c in chosen && d in segments && d !in chosen ==> |c.docs| <= |d.docs|
  }

  /** The merged segment is built from what the chosen ones hold, or the merge is given up. */
  lemma BuildDoes(g: Settings, s: State, built: bool)
    requires Inv(g, s) && s.jobs != [] && s.jobs[0].phase.Queued?
    ensures var t, job := After(g, s, MergeBuild(built)), s.jobs[0];
      && t.segments == s.segments && t.buffer == s.buffer && t.tombstones == s.tombstones && t.added == s.added
      && t.disk == s.disk[job.id := Concat(job.chosen)]
      && (built && Concat(job.chosen) != [] ==>
            t.merging == s.merging &&
            t.jobs == [Job(job.chosen, job.id, Built(Segment(job.id, Concat(job.chosen))))] + s.jobs[1..])
      && (!built || Concat(job.chosen) == [] ==> !t.merging && t.jobs == s.jobs[1..])
  {
    hide Inv, Sources, SourcesThere, Concat;
    BuildKeeps(g, s, built);
  }

  /** One segment with all the documents of the chosen ones in their place, at the end. */
  ghost predicate Replaced(before: seq<Segment>, after: seq<Segment>, job: Job)
  {
    var merged := Segment(job.id, Concat(job.chosen));
    && (forall c :: c in after <==> (c in before && c !in job.chosen) || c == merged)
    && after != [] && after[|after| - 1] == merged
  }

  /** The merged segment takes the place of the chosen ones and of nothing else. */
  lemma SwapDoes(g: Settings, s: State)
    requires Inv(g, s) && s.jobs != [] && s.jobs[0].phase.Built?
    ensures var t, job := After(g, s, MergeSwap), s.jobs[0];
      && t.buffer == s.buffer && t.tombstones == s.tombstones && t.added == s.added && t.disk == s.disk
      && Replaced(s.segments, t.segments, job)
      && t.jobs != [] && t.jobs[0] == Job(job.chosen, job.id, Removing(0))
  {
    hide Docs, Concat, MaybeMerge, Kept, IdsOf;
    var job := s.jobs[0];
    assert InFlight(job) && FlightOk(g, s, job);
    ChosenByNumber(s.segments, job.chosen);
  }

  lemma SwapIs(g: Settings, s: State)
    ensures After(g, s, MergeSwap) == AfterSwap(g, s)
    ensures AfterSwap(g, s) ==
      if s.jobs == [] || !s.jobs[0].phase.Built? then s else AfterSchedule(g, Swapped(s))
  {
  }

  lemma ChosenByNumber(segments: seq<Segment>, chosen: seq<Segment>)
    requires DistinctIds(segments) && forall c :: c in chosen ==> c in segments
    ensures forall c :: c in segments ==> (c.id in IdsOf(chosen) <==> c in chosen)
  {
    forall c | c in segments && c.id in IdsOf(chosen)
      ensures c in chosen
    {
      var d :| d in chosen && d.id == c.id;
      var i :| 0 <= i < |segments| && segments[i] == c;
      var j :| 0 <= j < |segments| && segments[j] == d;
      assert i == j;
    }
  }

  /** The files of one merged segment go, and no others. */
  lemma RemoveDoes(g: Settings, s: State)
    requires s.jobs != [] && s.jobs[0].phase.Removing?
    ensures var t, job, n := After(g, s, MergeRemove), s.jobs[0], s.jobs[0].phase.next;
      && t.segments == s.segments && t.buffer == s.buffer && t.tombstones == s.tombstones && t.added == s.added
      && t.merging == s.merging
      && (n < |job.chosen| ==>
            && job.chosen[n].id !in t.disk
            && (forall id :: id != job.chosen[n].id ==>
                  (id in t.disk <==> id in s.disk) && (id in s.disk ==> t.disk[id] == s.disk[id]))
            && t.jobs == [Job(job.chosen, job.id, Removing(n + 1))] + s.jobs[1..])
      && (|job.chosen| <= n ==> t.disk == s.disk && t.jobs == s.jobs[1..])
  {
  }

  /** Only a delete changes the tombstones, and it adds its id. */
  lemma TombstonesChange(g: Settings, s: State, e: Event)
    ensures After(g, s, e).tombstones == if e.Delete? then s.tombstones + {e.id} else s.tombstones
    ensures e.Delete? ==> After(g, s, e) == s.(tombstones := s.tombstones + {e.id})
  {
    hide MaybeMerge, Kept;
  }

  // ---- runs ----

  /** The ids deleted by some events. */
  function Deleted(events: seq<Event>): set<string>
  {
    set e | e in events && e.Delete? :: e.id
  }

  /** The documents added by some events, in order. */
  function AddedBy(events: seq<Event>): seq<Doc>
  {
    if events == [] then []
    else
      var e := events[|events| - 1];
      AddedBy(events[..|events| - 1]) + if e.Add? then [e.doc] else []
  }

  /** Whatever else happens in a run, exactly the ids deleted in it are tombstoned at its
      end, and the documents that count as added are the initial ones and those added. */
  lemma {:induction false} RunRemembers(g: Settings, initial: seq<Segment>, events: seq<Event>)
    ensures AfterAll(g, initial, events).tombstones == Deleted(events)
    ensures AfterAll(g, initial, events).added == Concat(initial) + AddedBy(events)
  {
    hide After;
    if events == [] {
      assert Concat(initial) + [] == Concat(initial);
    } else {
      var before, e := events[..|events| - 1], events[|events| - 1];
      RunRemembers(g, initial, before);
      assert events == before + [e];
      DeletedMore(before, e);
      TombstonesChange(g, AfterAll(g, initial, before), e);
      AddedChange(g, AfterAll(g, initial, before), e);
      assert Concat(initial) + AddedBy(before) + [] == Concat(initial) + AddedBy(before);
    }
  }

  lemma DeletedMore(events: seq<Event>, e: Event)
    ensures Deleted(events + [e]) == if e.Delete? then Deleted(events) + {e.id} else Deleted(events)
  {
    if e.Delete? {
      assert e in events + [e];
    }
    assert forall f :: f in events + [e] <==> f in events || f == e;
  }

  lemma AddedChange(g: Settings, s: State, e: Event)
    ensures After(g, s, e).added == s.added + if e.Add? then [e.doc] else []
  {
    hide MaybeMerge, Kept;
  }

  /** A flush that succeeds makes everything added searchable: the live segments hold each
      document as often as it was among the initial ones or added. */
  lemma FlushShowsAll(g: Settings, initial: seq<Segment>, events: seq<Event>)
    requires Openable(initial) && FilesApart(initial)
    ensures var t := AfterAll(g, initial, events + [Flush(true)]);
      t.buffer == [] && Docs(t.segments) == multiset(Concat(initial) + AddedBy(events))
  {
    hide Inv, After, Docs, Openable;
    var all, s := events + [Flush(true)], AfterAll(g, initial, events);
    assert all[..|all| - 1] == events && all[|all| - 1] == Flush(true);
    RunRemembers(g, initial, events);
    RunKeeps(g, initial, events);
    RunKeeps(g, initial, all);
    FlushDoes(g, s, true);
    AllLive(g, AfterAll(g, initial, all));
  }

  lemma AllLive(g: Settings, s: State)
    requires Inv(g, s) && s.buffer == []
    ensures Docs(s.segments) == multiset(s.added)
  {
    hide Docs;
  }

  /** While no build fails, fewer documents wait than the threshold. */
  lemma {:induction false} BufferStaysBelow(g: Settings, initial: seq<Segment>, events: seq<Event>)
    requires 1 <= g.flushThreshold
    requires forall e :: e in events && (e.Add? || e.Flush?) ==> e.built
    ensures |AfterAll(g, initial, events).buffer| < g.flushThreshold
  {
    hide After;
    if events != [] {
      var before, e := events[..|events| - 1], events[|events| - 1];
      assert events == before + [e];
      BufferStaysBelow(g, initial, before);
      BufferShrinks(g, AfterAll(g, initial, before), e);
    }
  }

  lemma BufferShrinks(g: Settings, s: State, e: Event)
    requires 1 <= g.flushThreshold && |s.buffer| < g.flushThreshold && ((e.Add? || e.Flush?) ==> e.built)
    ensures |After(g, s, e).buffer| < g.flushThreshold
  {
    match e {
      case Add(doc, intervalUp, built) => AddDoes(g, s, doc, intervalUp, built);
      case Flush(built) => FlushDoes(g, s, built);
      case Delete(_) =>
      case MergeBuild(_) =>
      case MergeSwap =>
        hide MaybeMerge;
      case MergeRemove =>
    }
  }

  // ---- no file is left behind ----

  /** Every source file is that of a live segment, of a merged one about to be swapped in,
      or of one about to be removed. */
  ghost predicate Tidy(s: State)
  {
    forall id :: id in s.disk ==> Listed(s, id) || exists i :: 0 <= i < |s.jobs| && Pending(s.jobs[i], id)
  }

  ghost predicate Listed(s: State, id: int)
  {
    exists c :: c in s.segments && c.id == id
  }

  ghost predicate Pending(job: Job, id: int)
  {
    match job.phase
    case Queued => false
    case Built(_) => id == job.id
    case Removing(n) => exists m :: n <= m < |job.chosen| && job.chosen[m].id == id
  }

  /** More segments, or more jobs at the end, lose track of no file. */
  lemma TidyFurther(s: State, t: State)
    requires Tidy(s) && s.segments <= t.segments && s.jobs <= t.jobs
    requires forall id :: id in t.disk ==> id in s.disk || Listed(t, id)
    ensures Tidy(t)
  {
    hide Pending;
    forall id | id in t.disk
      ensures Listed(t, id) || exists i :: 0 <= i < |t.jobs| && Pending(t.jobs[i], id)
    {
      if id in s.disk && Listed(s, id) {
        var c :| c in s.segments && c.id == id;
        assert c in t.segments;
      }
      if id in s.disk && exists i :: 0 <= i < |s.jobs| && Pending(s.jobs[i], id) {
        var i :| 0 <= i < |s.jobs| && Pending(s.jobs[i], id);
        assert t.jobs[i] == s.jobs[i];
      }
    }
  }

  lemma FlushTidy(g: Settings, s: State)
    requires Tidy(s)
    ensures Tidy(AfterFlush(g, s, true))
  {
    hide Tidy, MaybeMerge;
    if s.buffer != [] {
      var t, c := AfterFlush(g, s, true), Segment(s.nextId, s.buffer);
      assert t.segments == s.segments + [c] && t.disk == s.disk[s.nextId := s.buffer];
      assert c in t.segments && Listed(t, s.nextId);
      TidyFurther(s, t);
    }
  }

  lemma BuildTidy(g: Settings, s: State)
    requires Inv(g, s) && Tidy(s) && Merges(g)
    ensures Tidy(AfterBuild(s, true))
  {
    hide Docs, Concat, Sources, SourcesThere, Inv;
    if s.jobs != [] && s.jobs[0].phase.Queued? {
      var t := AfterBuild(s, true);
      BuildDoes(g, s, true);
      BuildKeeps(g, s, true);
      QueuedInFlight(g, s);
      assert Pending(t.jobs[0], s.jobs[0].id);
      TidyBuilt(s, t);
    }
  }

  lemma QueuedInFlight(g: Settings, s: State)
    requires Inv(g, s) && s.jobs != [] && s.jobs[0].phase.Queued? && Merges(g)
    ensures Concat(s.jobs[0].chosen) != []
  {
    hide Docs;
    var job := s.jobs[0];
    assert InFlight(job) && FlightOk(g, s, job);
    assert job.chosen[0] in s.segments;
    SomeDocs(job.chosen);
  }

  lemma TidyBuilt(s: State, t: State)
    requires Tidy(s) && s.jobs != [] && s.jobs[0].phase.Queued? && t.segments == s.segments
    requires |t.jobs| == |s.jobs| && t.jobs[1..] == s.jobs[1..]
    requires forall id :: id in t.disk ==> id in s.disk || Pending(t.jobs[0], id)
    ensures Tidy(t)
  {
    forall id | id in t.disk && !Listed(t, id)
      ensures exists i :: 0 <= i < |t.jobs| && Pending(t.jobs[i], id)
    {
      if !Pending(t.jobs[0], id) {
        assert !Listed(s, id);
        var i :| 0 <= i < |s.jobs| && Pending(s.jobs[i], id);
        assert 0 < i && t.jobs[1..][i - 1] == s.jobs[1..][i - 1];
        assert Pending(t.jobs[i], id);
      }
    }
  }

  lemma SwapTidy(g: Settings, s: State)
    requires Inv(g, s) && Tidy(s)
    ensures Tidy(AfterSwap(g, s))
  {
    hide Docs, Concat, Inv, Tidy, MaybeMerge, Kept;
    if s.jobs != [] && s.jobs[0].phase.Built? {
      var t := Swapped(s);
      BuiltNumber(g, s);
      SwappedTidy(s, t);
      TidyFurther(t, AfterSchedule(g, t));
    }
  }

  lemma BuiltNumber(g: Settings, s: State)
    requires Inv(g, s) && s.jobs != [] && s.jobs[0].phase.Built?
    ensures s.jobs[0].phase.merged.id == s.jobs[0].id
  {
    hide Docs, Concat;
    assert InFlight(s.jobs[0]) && FlightOk(g, s, s.jobs[0]);
  }

  lemma SwappedTidy(s: State, t: State)
    requires Tidy(s) && s.jobs != [] && s.jobs[0].phase.Built? && t == Swapped(s)
    requires s.jobs[0].phase.merged.id == s.jobs[0].id
    ensures Tidy(t)
  {
    hide Kept;
    var job := s.jobs[0];
    assert job.phase.merged in t.segments;
    forall id | id in t.disk && !Listed(t, id)
      ensures exists i :: 0 <= i < |t.jobs| && Pending(t.jobs[i], id)
    {
      if Listed(s, id) {
        var c :| c in s.segments && c.id == id;
        assert c.id in IdsOf(job.chosen);
        assert Pending(t.jobs[0], id);
      } else {
        var i :| 0 <= i < |s.jobs| && Pending(s.jobs[i], id);
        assert i != 0;
        assert Pending(t.jobs[i], id);
      }
    }
  }

  lemma RemoveTidy(s: State)
    requires Tidy(s)
    ensures Tidy(AfterRemove(s))
  {
    var t := AfterRemove(s);
    forall id | id in t.disk && !Listed(t, id)
      ensures exists i :: 0 <= i < |t.jobs| && Pending(t.jobs[i], id)
    {
      assert !Listed(s, id);
      var i :| 0 <= i < |s.jobs| && Pending(s.jobs[i], id);
      assert |t.jobs| == |s.jobs| ==> Pending(t.jobs[i], id);
      assert |t.jobs| < |s.jobs| ==> Pending(t.jobs[i - 1], id);
    }
  }

  /** No build fails. */
  predicate AllBuilt(events: seq<Event>)
  {
    forall e :: e in events && (e.Add? || e.Flush? || e.MergeBuild?) ==> e.built
  }

  lemma StepTidy(g: Settings, s: State, e: Event)
    requires Inv(g, s) && Tidy(s) && Merges(g) && AllBuilt([e])
    ensures Tidy(After(g, s, e))
  {
    hide Inv, AfterFlush, AfterBuild, AfterSwap, AfterRemove;
    assert e in [e];
    match e {
      case Add(doc, intervalUp, built) =>
        var more := s.(buffer := s.buffer + [doc], added := s.added + [doc]);
        TidyFurther(s, more);
        FlushTidy(g, more);
      case Flush(built) => FlushTidy(g, s);
      case Delete(id) => TidyFurther(s, After(g, s, e));
      case MergeBuild(built) => BuildTidy(g, s);
      case MergeSwap => SwapTidy(g, s);
      case MergeRemove => RemoveTidy(s);
    }
  }

  lemma {:induction false} DiskListed(segments: seq<Segment>)
    ensures forall id :: id in DiskOf(segments) ==> exists c :: c in segments && c.id == id
  {
    if segments != [] {
      var before, last := segments[..|segments| - 1], segments[|segments| - 1];
      DiskListed(before);
      assert segments == before + [last];
      assert last in segments;
    }
  }

  lemma {:induction false} RunTidy(g: Settings, initial: seq<Segment>, events: seq<Event>)
    requires Openable(initial) && FilesApart(initial) && Merges(g) && AllBuilt(events)
    ensures Tidy(AfterAll(g, initial, events))
  {
    hide Inv, After, Openable;
    if events == [] {
      DiskListed(initial);
    } else {
      hide Tidy;
      var before, e := events[..|events| - 1], events[|events| - 1];
      assert events == before + [e];
      RunTidy(g, initial, before);
      RunKeeps(g, initial, before);
      StepTidy(g, AfterAll(g, initial, before), e);
    }
  }

  /** No file is left behind: in a run in which no build fails, whenever the merge thread
      has nothing to do, the source files are exactly those of the live segments. */
  lemma NoFileLeft(g: Settings, initial: seq<Segment>, events: seq<Event>)
    requires Openable(initial) && FilesApart(initial) && Merges(g) && AllBuilt(events)
    requires AfterAll(g, initial, events).jobs == []
    ensures var t := AfterAll(g, initial, events);
      forall id :: id in t.disk <==> exists c :: c in t.segments && c.id == id
  {
    hide Inv, After, Openable, AfterAll;
    RunTidy(g, initial, events);
    RunKeeps(g, initial, events);
    var t := AfterAll(g, initial, events);
    forall id
      ensures id in t.disk <==> Listed(t, id)
    {
      if Listed(t, id) {
        var c :| c in t.segments && c.id == id;
        LiveOnDisk(g, t, c);
      }
    }
  }
}
