/** The near-real-time index as a state machine: every atomic step of the writers and of
    the background merge thread, and what any interleaving of them keeps. */
module NrtState {
  import opened Common
  import opened MergePolicy

  /** The one merge worker takes jobs in order. A job reads and builds, swaps the merged
      segment in, and then deletes the files of what it merged, one segment at a time. */
  datatype Phase = Queued | Built(merged: Segment) | Removing(next: nat)

  datatype Job = Job(chosen: seq<Segment>, id: nat, phase: Phase)

  datatype Settings = Settings(flushThreshold: nat, policy: Option<Policy>)

  /** `disk` has the source files by segment number; `added` is every document so far,
      the initial segments' first. */
  datatype State = State(segments: seq<Segment>, buffer: seq<Doc>, tombstones: set<string>, nextId: nat,
                         merging: bool, jobs: seq<Job>, disk: map<int, seq<Doc>>, added: seq<Doc>)

  /** `intervalUp`: the flush interval has passed; `built`: the index builder succeeds. */
  datatype Event =
    | Add(doc: Doc, intervalUp: bool, built: bool)
    | Flush(built: bool)
    | Delete(id: string)
    | MergeBuild(built: bool)
    | MergeSwap
    | MergeRemove

  // ---- steps ----

  function AfterSchedule(g: Settings, s: State): State
  {
    if g.policy.None? || s.merging then s
    else
      match MaybeMerge(g.policy.value, s.segments)
      case None => s
      case Some(plan) =>
        s.(merging := true, nextId := s.nextId + 1, jobs := s.jobs + [Job(plan, s.nextId, Queued)])
  }

  /** A failed build keeps the buffer, but the number is used up. */
  function AfterFlush(g: Settings, s: State, built: bool): State
  {
    if s.buffer == [] then s
    else
      var id := s.nextId;
      var written := s.(nextId := id + 1, disk := s.disk[id := s.buffer]);
      if !built then written
      else AfterSchedule(g, written.(segments := s.segments + [Segment(id, s.buffer)], buffer := []))
  }

  function AfterAdd(g: Settings, s: State, doc: Doc, intervalUp: bool, built: bool): State
  {
    var more := s.(buffer := s.buffer + [doc], added := s.added + [doc]);
    if |more.buffer| >= g.flushThreshold || intervalUp then AfterFlush(g, more, built) else more
  }

  predicate SourcesThere(disk: map<int, seq<Doc>>, chosen: seq<Segment>)
  {
    forall c :: c in chosen ==> c.id in disk
  }

  /** The concatenated source files. */
  function Sources(disk: map<int, seq<Doc>>, chosen: seq<Segment>): seq<Doc>
    requires SourcesThere(disk, chosen)
  {
    if chosen == [] then [] else disk[chosen[0].id] + Sources(disk, chosen[1..])
  }

  /** A missing source file fails the merge as a failing builder does; the builder fails
      on no documents. */
  function AfterBuild(s: State, built: bool): State
  {
    if s.jobs == [] || !s.jobs[0].phase.Queued? then s
    else
      var job := s.jobs[0];
      if !SourcesThere(s.disk, job.chosen) then s.(merging := false, jobs := s.jobs[1..])
      else
        var text := Sources(s.disk, job.chosen);
        var disk := s.disk[job.id := text];
        if !built || text == [] then s.(merging := false, jobs := s.jobs[1..], disk := disk)
        else s.(jobs := [job.(phase := Built(Segment(job.id, text)))] + s.jobs[1..], disk := disk)
  }

  function Swapped(s: State): State
    requires s.jobs != [] && s.jobs[0].phase.Built?
  {
    var job := s.jobs[0];
    s.(segments := Kept(s.segments, IdsOf(job.chosen)) + [job.phase.merged],
       merging := false,
       jobs := [job.(phase := Removing(0))] + s.jobs[1..])
  }

  function AfterSwap(g: Settings, s: State): State
  {
    if s.jobs == [] || !s.jobs[0].phase.Built? then s else AfterSchedule(g, Swapped(s))
  }

  function AfterRemove(s: State): State
  {
    if s.jobs == [] || !s.jobs[0].phase.Removing? then s
    else
      var job := s.jobs[0];
      var n := job.phase.next;
      if n < |job.chosen| then
        s.(disk := s.disk - {job.chosen[n].id}, jobs := [job.(phase := Removing(n + 1))] + s.jobs[1..])
      else s.(jobs := s.jobs[1..])
  }

  function After(g: Settings, s: State, e: Event): State
  {
    match e
    case Add(doc, intervalUp, built) => AfterAdd(g, s, doc, intervalUp, built)
    case Flush(built) => AfterFlush(g, s, built)
    case Delete(id) => s.(tombstones := s.tombstones + {id})
    case MergeBuild(built) => AfterBuild(s, built)
    case MergeSwap => AfterSwap(g, s)
    case MergeRemove => AfterRemove(s)
  }

  // ---- the invariant ----

  predicate InFlight(job: Job)
  {
    !job.phase.Removing?
  }

  ghost predicate Numbered(s: State)
  {
    && DistinctIds(s.segments)
    && forall c :: c in s.segments ==> c.id < s.nextId && c.docs != []
  }

  /** A merge in flight will find all it has chosen still live when it swaps. */
  ghost predicate FlightOk(g: Settings, s: State, job: Job)
  {
    && g.policy.Some? && job.id < s.nextId
    && DistinctIds(job.chosen)
    && (forall c :: c in job.chosen ==> c in s.segments)
    && (forall c :: c in s.segments ==> c.id != job.id)
    && (1 <= g.policy.value.mergeFactor ==> job.chosen != [])
    && (1 <= g.policy.value.maxSegments && 2 <= g.policy.value.mergeFactor ==> 2 <= |job.chosen|)
    && (job.phase.Built? ==>
         && job.phase.merged == Segment(job.id, Concat(job.chosen)) && Concat(job.chosen) != []
         && job.id in s.disk && s.disk[job.id] == Concat(job.chosen))
  }

  /** Files are removed only for segments that are no longer listed. */
  ghost predicate RemovalOk(s: State, job: Job)
  {
    && job.phase.Removing? && job.phase.next <= |job.chosen|
    && (forall c :: c in job.chosen ==> c.id < s.nextId)
    && forall c, d :: c in job.chosen && d in s.segments ==> c.id != d.id
  }

  /** At most one merge is in flight, and the flag says whether one is. */
  ghost predicate JobsOk(g: Settings, s: State)
  {
    && |s.jobs| <= 2
    && (s.merging <==> s.jobs != [] && InFlight(s.jobs[|s.jobs| - 1]))
    && (|s.jobs| == 2 ==> !InFlight(s.jobs[0]) && s.jobs[1].phase.Queued?)
    && forall i :: 0 <= i < |s.jobs| ==>
         if InFlight(s.jobs[i]) then FlightOk(g, s, s.jobs[i]) else RemovalOk(s, s.jobs[i])
  }

  ghost predicate OnDisk(s: State)
  {
    forall c :: c in s.segments ==> c.id in s.disk && s.disk[c.id] == c.docs
  }

  /** Each occurrence of a document is in the buffer or in one live segment. */
  ghost predicate Conserved(s: State)
  {
    multiset(s.buffer) + Docs(s.segments) == multiset(s.added)
  }

  ghost predicate Inv(g: Settings, s: State)
  {
    Numbered(s) && JobsOk(g, s) && OnDisk(s) && Conserved(s)
  }

  // ---- every step keeps it ----

  lemma ScheduleKeeps(g: Settings, s: State)
    requires Inv(g, s)
    ensures Inv(g, AfterSchedule(g, s))
    ensures AfterSchedule(g, s).segments == s.segments && AfterSchedule(g, s).tombstones == s.tombstones
    ensures g.policy.Some? && g.policy.value.maxSegments < |s.segments| ==> AfterSchedule(g, s).merging
  {
    hide MaybeMerge, Docs;
    if g.policy.Some? && !s.merging {
      PlanIsSmallest(g.policy.value, s.segments);
    }
  }

  /** Writing a source file under the next number disturbs nothing. */
  lemma WriteKeeps(g: Settings, s: State, text: seq<Doc>)
    requires Inv(g, s)
    ensures Inv(g, s.(nextId := s.nextId + 1, disk := s.disk[s.nextId := text]))
  {
    hide Docs, Concat;
  }

  /** The buffer becomes a segment. */
  lemma PublishKeeps(g: Settings, s: State, id: nat)
    requires Inv(g, s) && s.buffer != [] && id < s.nextId && id in s.disk && s.disk[id] == s.buffer
    requires forall c :: c in s.segments ==> c.id != id
    requires forall i :: 0 <= i < |s.jobs| && InFlight(s.jobs[i]) ==> s.jobs[i].id != id
    requires forall i :: 0 <= i < |s.jobs| ==> forall c :: c in s.jobs[i].chosen ==> c.id != id
    ensures Inv(g, s.(segments := s.segments + [Segment(id, s.buffer)], buffer := []))
    ensures Docs(s.segments) <= Docs(s.segments + [Segment(id, s.buffer)])
  {
    hide Docs, Concat;
    var c := Segment(id, s.buffer);
    DocsAppend(s.segments, [c]);
    OneSegment(c);
    assert forall d :: d in s.segments + [c] <==> d in s.segments || d == c;
  }

  lemma OneSegment(c: Segment)
    ensures Docs([c]) == multiset(c.docs)
  {
    assert [c][1..] == [];
  }

  lemma UnusedNumber(g: Settings, s: State)
    requires Inv(g, s)
    ensures forall c :: c in s.segments ==> c.id != s.nextId
    ensures forall i :: 0 <= i < |s.jobs| && InFlight(s.jobs[i]) ==> s.jobs[i].id != s.nextId
    ensures forall i :: 0 <= i < |s.jobs| ==> forall c :: c in s.jobs[i].chosen ==> c.id != s.nextId
  {
    hide Docs, Concat;
  }

  lemma FlushKeeps(g: Settings, s: State, built: bool)
    requires Inv(g, s)
    ensures Inv(g, AfterFlush(g, s, built))
    ensures Docs(s.segments) <= Docs(AfterFlush(g, s, built).segments)
    ensures AfterFlush(g, s, built).tombstones == s.tombstones
    ensures built && s.buffer != [] ==> Settled(g, AfterFlush(g, s, built))
    ensures Settled(g, s) ==> Settled(g, AfterFlush(g, s, built))
  {
    hide Inv, Docs, MaybeMerge;
    if s.buffer != [] {
      var id := s.nextId;
      var written := s.(nextId := id + 1, disk := s.disk[id := s.buffer]);
      WriteKeeps(g, s, s.buffer);
      UnusedNumber(g, s);
      if built {
        PublishKeeps(g, written, id);
        ScheduleKeeps(g, written.(segments := s.segments + [Segment(id, s.buffer)], buffer := []));
      }
    }
  }

  lemma AddKeeps(g: Settings, s: State, doc: Doc)
    requires Inv(g, s)
    ensures Inv(g, s.(buffer := s.buffer + [doc], added := s.added + [doc]))
  {
    hide Docs, Concat, DistinctIds;
  }

  lemma {:induction false} SourcesAreDocs(disk: map<int, seq<Doc>>, chosen: seq<Segment>)
    requires forall c :: c in chosen ==> c.id in disk && disk[c.id] == c.docs
    ensures SourcesThere(disk, chosen) && Sources(disk, chosen) == Concat(chosen)
  {
    if chosen != [] {
      SourcesAreDocs(disk, chosen[1..]);
    }
  }

  predicate Merges(g: Settings)
  {
    g.policy.Some? ==> 1 <= g.policy.value.mergeFactor
  }

  /** The source files of a plan are there to be read: a merge fails only when the
      builder does. */
  lemma BuildKeeps(g: Settings, s: State, built: bool)
    requires Inv(g, s)
    ensures Inv(g, AfterBuild(s, built)) && AfterBuild(s, built).segments == s.segments
    ensures s.jobs != [] && s.jobs[0].phase.Queued? ==>
      SourcesThere(s.disk, s.jobs[0].chosen) && Sources(s.disk, s.jobs[0].chosen) == Concat(s.jobs[0].chosen)
    ensures built && Merges(g) && s.merging ==> AfterBuild(s, built).merging
  {
    hide Docs, Concat, Sources, DistinctIds;
    if s.jobs != [] && s.jobs[0].phase.Queued? {
      var job := s.jobs[0];
      assert InFlight(job) && FlightOk(g, s, job);
      SourcesAreDocs(s.disk, job.chosen);
      if job.chosen != [] {
        assert job.chosen[0] in s.segments;
        SomeDocs(job.chosen);
      }
    }
  }

  lemma SomeDocs(chosen: seq<Segment>)
    requires chosen != [] && chosen[0].docs != []
    ensures Concat(chosen) != []
  {
  }

  /** The merged segment takes the place of the chosen ones. */
  lemma SwapKeeps(g: Settings, s: State)
    requires Inv(g, s)
    ensures Inv(g, AfterSwap(g, s)) && Docs(AfterSwap(g, s).segments) == Docs(s.segments)
    ensures AfterSwap(g, s).tombstones == s.tombstones
    ensures s.jobs != [] && s.jobs[0].phase.Built? ==>
      Settled(g, AfterSwap(g, s)) && |AfterSwap(g, s).segments| + |s.jobs[0].chosen| == |s.segments| + 1
  {
    hide Inv, Docs, MaybeMerge, Kept;
    if s.jobs != [] && s.jobs[0].phase.Built? {
      SwappedKeeps(g, s);
      ScheduleKeeps(g, Swapped(s));
    }
  }

  lemma SwappedKeeps(g: Settings, s: State)
    requires Inv(g, s) && s.jobs != [] && s.jobs[0].phase.Built?
    ensures Inv(g, Swapped(s)) && Docs(Swapped(s).segments) == Docs(s.segments)
    ensures |Swapped(s).segments| + |s.jobs[0].chosen| == |s.segments| + 1
  {
    hide Docs, Concat, Kept, IdsOf;
    var job := s.jobs[0];
    assert InFlight(job) && FlightOk(g, s, job);
    var kept := Kept(s.segments, IdsOf(job.chosen));
    KeptWithout(s.segments, job.chosen);
    KeptDistinct(s.segments, IdsOf(job.chosen));
    ConcatDocs(job.chosen);
    OneSegment(job.phase.merged);
    DocsAppend(kept, [job.phase.merged]);
    SwappedOk(g, s, job);
  }

  lemma SwappedOk(g: Settings, s: State, job: Job)
    requires Inv(g, s) && s.jobs == [job] && FlightOk(g, s, job) && job.phase.Built?
    requires Docs(Swapped(s).segments) == Docs(s.segments) && DistinctIds(Kept(s.segments, IdsOf(job.chosen)))
    ensures Inv(g, Swapped(s))
  {
    hide Docs, Concat, Kept, IdsOf, FlightOk;
    var t := Swapped(s);
    MergedIsNew(g, s, job);
    var done := job.(phase := Removing(0));
    assert RemovalOk(t, done) && t.jobs == [done];
    assert forall d :: d in t.segments ==> d in s.segments || d == job.phase.merged;
  }

  lemma MergedIsNew(g: Settings, s: State, job: Job)
    requires Inv(g, s) && s.jobs == [job] && FlightOk(g, s, job) && job.phase.Built?
    ensures forall c :: c in job.chosen ==> c.id < s.nextId
    ensures forall c, d :: c in job.chosen && d in Swapped(s).segments ==> c.id != d.id
    ensures job.phase.merged.id == job.id < s.nextId && job.phase.merged.docs != []
    ensures job.id in s.disk && s.disk[job.id] == job.phase.merged.docs
    ensures forall c :: c in s.segments ==> c.id != job.id
  {
    hide Docs, Concat, Kept, IdsOf;
    forall c, d | c in job.chosen && d in Swapped(s).segments
      ensures c.id != d.id
    {
      var i :| 0 <= i < |job.chosen| && job.chosen[i] == c;
      assert c.id in IdsOf(job.chosen);
    }
  }

  lemma RemoveKeeps(g: Settings, s: State)
    requires Inv(g, s)
    ensures Inv(g, AfterRemove(s)) && AfterRemove(s).segments == s.segments
  {
    hide Docs, Concat, DistinctIds;
  }

  /** A merge is in flight whenever there are too many segments: so it is from the first
      flush on, unless a merge fails. */
  ghost predicate Settled(g: Settings, s: State)
  {
    s.merging || g.policy.None? || |s.segments| <= g.policy.value.maxSegments
  }

  /** Every step keeps the invariant, and no document already searchable is ever out of
      sight: the live segments' documents only grow. A delete adds its id to the tombstones,
      and nothing else changes them. */
  lemma StepKeeps(g: Settings, s: State, e: Event)
    requires Inv(g, s)
    ensures Inv(g, After(g, s, e))
    ensures Docs(s.segments) <= Docs(After(g, s, e).segments)
    ensures s.tombstones <= After(g, s, e).tombstones
    ensures e.Delete? ==> e.id in After(g, s, e).tombstones
    ensures forall id :: id in After(g, s, e).tombstones ==> id in s.tombstones || e == Delete(id)
    ensures Settled(g, s) && Merges(g) && !(e.MergeBuild? && !e.built) ==> Settled(g, After(g, s, e))
  {
    hide Inv, Docs, AfterSchedule;
    match e {
      case Add(doc, intervalUp, built) =>
        var more := s.(buffer := s.buffer + [doc], added := s.added + [doc]);
        AddKeeps(g, s, doc);
        FlushKeeps(g, more, built);
      case Flush(built) => FlushKeeps(g, s, built);
      case Delete(id) => DeleteKeeps(g, s, id);
      case MergeBuild(built) => BuildKeeps(g, s, built);
      case MergeSwap => SwapKeeps(g, s);
      case MergeRemove => RemoveKeeps(g, s);
    }
  }

  lemma DeleteKeeps(g: Settings, s: State, id: string)
    requires Inv(g, s)
    ensures Inv(g, s.(tombstones := s.tombstones + {id}))
  {
    hide Docs, Concat, DistinctIds;
  }
}
