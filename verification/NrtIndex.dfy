/** The index object: its methods are the atomic sections of the lock and of the merge
    thread, and each is one step of the state machine. */
module NrtIndex {
  import opened MergePolicy
  import opened NrtState
  import opened NrtRuns
  import opened Ranking
  import opened FanOut
  import opened NrtLaws
  import opened NrtSearch
  import opened OverFetch
  import Segments = SegmentSet

  class NrtIndex {
    const settings: Settings
    var segments: seq<Segment>
    var tombstones: set<string>
    var buffer: seq<Doc>
    var nextSegmentId: nat
    var mergeInProgress: bool
    var mergeJobs: seq<Job>
    var sourceFiles: map<int, seq<Doc>>
    ghost var added: seq<Doc>

    ghost function Abstract(): State
      reads this
    {
      State(segments, buffer, tombstones, nextSegmentId, mergeInProgress, mergeJobs, sourceFiles, added)
    }

    ghost predicate Valid()
      reads this
    {
      Inv(settings, Abstract())
    }

    /** The counter starts at the number of segments, whatever their files are called. */
    constructor (settings: Settings, initial: seq<Segment>)
      requires Openable(initial)
      ensures Abstract() == Start(initial) && this.settings == settings
      ensures FilesApart(initial) ==> Valid()
    {
      this.settings := settings;
      segments, tombstones, buffer, nextSegmentId := initial, {}, [], |initial|;
      mergeInProgress, mergeJobs := false, [];
      sourceFiles := DiskOf(initial);
      added := Concat(initial);
      new;
      StartKeeps(settings, initial);
    }

    method Add(doc: Doc, intervalUp: bool, built: bool)
      requires Valid()
      modifies this
      ensures Valid() && Abstract() == After(settings, old(Abstract()), Event.Add(doc, intervalUp, built))
      ensures tombstones == old(tombstones) && added == old(added) + [doc]
      ensures |old(buffer)| + 1 < settings.flushThreshold && !intervalUp ==>
        buffer == old(buffer) + [doc] && segments == old(segments)
      ensures settings.flushThreshold <= |old(buffer)| + 1 || intervalUp ==>
        if built then buffer == [] && segments == old(segments) + [Segment(old(nextSegmentId), old(buffer) + [doc])]
        else buffer == old(buffer) + [doc] && segments == old(segments)
    {
      hide Inv, AfterFlush, After;
      AddDoes(settings, Abstract(), doc, intervalUp, built);
      AddIs(settings, Abstract(), doc, intervalUp, built);
      AddKeeps(settings, Abstract(), doc);
      buffer := buffer + [doc];
      added := added + [doc];
      var shouldFlush := |buffer| >= settings.flushThreshold || intervalUp;
      if shouldFlush {
        FlushLocked(built);
      }
    }

    method Flush(built: bool)
      requires Valid()
      modifies this
      ensures Valid() && Abstract() == After(settings, old(Abstract()), Event.Flush(built))
      ensures tombstones == old(tombstones) && added == old(added)
      ensures old(buffer) == [] ==> segments == old(segments) && buffer == []
      ensures old(buffer) != [] && built ==>
        buffer == [] && segments == old(segments) + [Segment(old(nextSegmentId), old(buffer))]
      ensures !built ==> buffer == old(buffer) && segments == old(segments)
    {
      hide Inv, AfterSchedule;
      FlushDoes(settings, Abstract(), built);
      FlushLocked(built);
    }

    /** Takes effect for every later search, over the segments there are and those to
        come. */
    method Delete(id: string)
      requires Valid()
      modifies this`tombstones
      ensures Valid() && Abstract() == After(settings, old(Abstract()), Event.Delete(id))
      ensures tombstones == old(tombstones) + {id}
    {
      hide Inv;
      StepKeeps(settings, Abstract(), Event.Delete(id));
      tombstones := tombstones + {id};
    }

    method FlushLocked(built: bool)
      requires Valid()
      modifies this
      ensures Valid() && Abstract() == AfterFlush(settings, old(Abstract()), built)
    {
      hide Inv, AfterSchedule;
      FlushKeeps(settings, Abstract(), built);
      if buffer == [] {
        return;
      }
      var id := nextSegmentId;
      nextSegmentId := nextSegmentId + 1;
      sourceFiles := sourceFiles[id := buffer];
      if !built {
        return;
      }
      segments := segments + [Segment(id, buffer)];
      buffer := [];
      MaybeScheduleMergeLocked();
    }

    method MaybeScheduleMergeLocked()
      modifies this
      ensures Abstract() == AfterSchedule(settings, old(Abstract()))
      ensures DistinctIds(old(segments)) ==> Submits(settings, old(Abstract()), Abstract())
    {
      hide Submits;
      if DistinctIds(segments) {
        ScheduleDoes(settings, Abstract());
      }
      if settings.policy.None? || mergeInProgress {
        return;
      }
      var plan := MaybeMerge(settings.policy.value, segments);
      if plan.None? {
        return;
      }
      mergeInProgress := true;
      var mergeId := nextSegmentId;
      nextSegmentId := nextSegmentId + 1;
      mergeJobs := mergeJobs + [Job(plan.value, mergeId, Queued)];
    }

    /** The merged source text; every file is there. */
    method ReadSources(chosen: seq<Segment>) returns (text: seq<Doc>)
      requires SourcesThere(sourceFiles, chosen)
      ensures text == Sources(sourceFiles, chosen)
    {
      text := [];
      assert chosen[0..] == chosen;
      for i := 0 to |chosen|
        invariant text + Sources(sourceFiles, chosen[i..]) == Sources(sourceFiles, chosen)
      {
        assert chosen[i..][0] == chosen[i] && chosen[i..][1..] == chosen[i + 1..];
        text := text + sourceFiles[chosen[i].id];
      }
      assert chosen[|chosen|..] == [];
    }

    /** The merge thread, outside the lock until it fails. */
    method MergeBuild(built: bool)
      requires Valid()
      modifies this
      ensures Valid() && Abstract() == After(settings, old(Abstract()), Event.MergeBuild(built))
      ensures segments == old(segments) && tombstones == old(tombstones) && buffer == old(buffer)
    {
      hide Inv, Sources, Concat, SourcesThere;
      BuildKeeps(settings, Abstract(), built);
      if mergeJobs == [] || !mergeJobs[0].phase.Queued? {
        return;
      }
      var job := mergeJobs[0];
      var text := ReadSources(job.chosen);
      sourceFiles := sourceFiles[job.id := text];
      if !built || text == [] {
        mergeInProgress := false;
        mergeJobs := mergeJobs[1..];
        return;
      }
      mergeJobs := [job.(phase := Built(Segment(job.id, text)))] + mergeJobs[1..];
    }

    method MergeSwap()
      requires Valid()
      modifies this
      ensures Valid() && Abstract() == After(settings, old(Abstract()), Event.MergeSwap)
      ensures tombstones == old(tombstones) && buffer == old(buffer) && sourceFiles == old(sourceFiles)
      ensures old(mergeJobs) != [] && old(mergeJobs)[0].phase.Built? ==>
        Replaced(old(segments), segments, old(mergeJobs)[0])
    {
      hide Inv, AfterSchedule, DistinctIds, Replaced, Submits, After, AfterSwap, Kept, IdsOf, Concat, Docs;
      SwapKeeps(settings, Abstract());
      SwapIs(settings, Abstract());
      if mergeJobs == [] || !mergeJobs[0].phase.Built? {
        return;
      }
      SwapDoes(settings, Abstract());
      var job := mergeJobs[0];
      var chosenIds := IdsOf(job.chosen);
      segments := Kept(segments, chosenIds);
      segments := segments + [job.phase.merged];
      mergeInProgress := false;
      mergeJobs := [job.(phase := Removing(0))] + mergeJobs[1..];
      MaybeScheduleMergeLocked();
    }

    /** Deletes the files of one merged segment. */
    method MergeRemove()
      requires Valid()
      modifies this
      ensures Valid() && Abstract() == After(settings, old(Abstract()), Event.MergeRemove)
      ensures segments == old(segments) && tombstones == old(tombstones) && buffer == old(buffer)
      ensures old(mergeJobs) != [] && old(mergeJobs)[0].phase.Removing? ==>
        var job := old(mergeJobs)[0];
        job.phase.next < |job.chosen| ==> job.chosen[job.phase.next].id !in sourceFiles
    {
      hide Inv;
      RemoveKeeps(settings, Abstract());
      if mergeJobs == [] || !mergeJobs[0].phase.Removing? {
        return;
      }
      var job := mergeJobs[0];
      var n := job.phase.next;
      if n < |job.chosen| {
        sourceFiles := sourceFiles - {job.chosen[n].id};
        mergeJobs := [job.(phase := Removing(n + 1))] + mergeJobs[1..];
      } else {
        mergeJobs := mergeJobs[1..];
      }
    }

    /** Searches a snapshot of the segments and the tombstones. No hit is deleted: each is a
        live match, in order of score, then segment, then place. The hits are the first k of
        all the flushed documents not deleted, by score, then segment, then place, if every
        segment is coverable, which is what it takes to be so on every query; and every
        segment is, in whatever state the index is, if no id was added twice. */
    method Search(k: nat, engine: Engine, ghost matches: seq<set<Result>>) returns (hits: seq<Segments.Hit>)
      requires Valid() && 1 <= k && Segments.AllAnswer(Snapshot(segments, engine), matches)
      ensures Segments.Named(Snapshot(segments, engine), hits) && |hits| <= k
      ensures Segments.LiveHits(Snapshot(segments, engine), tombstones, matches, hits)
      ensures forall h :: h in hits ==> h.id !in tombstones
      ensures AllCoverable(Snapshot(segments, engine), tombstones) ==>
        var live := Snapshot(segments, engine);
        IsTopK(Segments.Places(hits),
               Union(Segments.Sizes(live), matches, Segments.Lives(live, tombstones), |live|), k)
      ensures AllCoverable(Snapshot(segments, engine), tombstones) <==> SetAlwaysExact(IdLists(segments), tombstones)
      ensures AddedOnce(added) ==> AllCoverable(Snapshot(segments, engine), tombstones)
    {
      hide Inv, IsTopK, Segments.Coverable, Segments.AllAnswer, Segments.Named, Union, AddedOnce, Snapshot;
      hide SetAlwaysExact;
      SnapshotExactness(segments, tombstones, engine);
      if AddedOnce(added) {
        SnapshotCoverable(settings, Abstract(), engine);
      }
      var snapshot := new Segments.SegmentSet(Snapshot(segments, engine), tombstones);
      hits := snapshot.Search(k, matches);
    }
  }
}
