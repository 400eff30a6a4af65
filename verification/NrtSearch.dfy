/** Searching the near-real-time index: what a snapshot of it is as a set of segments, and
    when every snapshot of every run is searched exactly. */
module NrtSearch {
  import opened Ranking
  import opened MergePolicy
  import opened NrtState
  import opened NrtRuns
  import opened NrtLaws
  import opened SegmentSet
  import opened OverFetch

  function IdsIn(docs: seq<Doc>): (ids: seq<string>)
    ensures |ids| == |docs| && forall i :: 0 <= i < |ids| ==> ids[i] == docs[i].id
  {
    seq(|docs|, i requires 0 <= i < |docs| => docs[i].id)
  }

  /** What the built index of a segment answers to the query, for any number of results. */
  type Engine = (Segment, nat) -> seq<Result>

  function Snapshot(segments: seq<Segment>, engine: Engine): (view: seq<Searchable>)
    ensures |view| == |segments|
    ensures forall i :: 0 <= i < |segments| ==> view[i].ids == IdsIn(segments[i].docs)
  {
    seq(|segments|, i requires 0 <= i < |segments| =>
      Searchable(IdsIn(segments[i].docs), (n: nat) => engine(segments[i], n)))
  }

  /** No id is added a second time, to documents there were or as an update. */
  ghost predicate AddedOnce(added: seq<Doc>)
  {
    NoIdTwice(IdsIn(added))
  }

  lemma {:induction false} MemberWithin(segments: seq<Segment>, c: Segment)
    requires c in segments
    ensures multiset(c.docs) <= Docs(segments)
  {
    if segments[0] != c {
      MemberWithin(segments[1..], c);
    }
  }

  lemma SameDocTwice(docs: seq<Doc>, i: nat, j: nat)
    requires i < j < |docs| && docs[i] == docs[j]
    ensures 2 <= multiset(docs)[docs[i]]
  {
    assert docs == docs[..i] + [docs[i]] + docs[i + 1..j] + [docs[j]] + docs[j + 1..];
  }

  lemma OnceAmong(added: seq<Doc>, k: nat)
    requires AddedOnce(added) && k < |added|
    ensures multiset(added)[added[k]] == 1
  {
    assert added == added[..k] + [added[k]] + added[k + 1..];
    assert added[k] !in multiset(added[..k]) && added[k] !in multiset(added[k + 1..]);
  }

  /** What comes of documents with different ids has different ids. */
  lemma PartHasIdsOnce(docs: seq<Doc>, added: seq<Doc>)
    requires AddedOnce(added) && multiset(docs) <= multiset(added)
    ensures NoIdTwice(IdsIn(docs))
  {
    forall i, j | 0 <= i < j < |docs|
      ensures docs[i].id != docs[j].id
    {
      if docs[i].id == docs[j].id {
        assert docs[i] in multiset(docs) && docs[j] in multiset(docs);
        assert docs[i] in added && docs[j] in added;
        var m :| 0 <= m < |added| && added[m] == docs[i];
        var n :| 0 <= n < |added| && added[n] == docs[j];
        assert IdsIn(added)[m] == IdsIn(added)[n];
        assert m == n;
        SameDocTwice(docs, i, j);
        OnceAmong(added, m);
      }
    }
  }

  /** In every state a run can reach, if no id is added twice, every live segment has each
      of its ids once, whichever segments were merged into it. */
  lemma LiveIdsOnce(g: Settings, s: State, c: Segment)
    requires Inv(g, s) && AddedOnce(s.added) && c in s.segments
    ensures NoIdTwice(IdsIn(c.docs))
  {
    MemberWithin(s.segments, c);
    assert multiset(c.docs) <= Docs(s.segments) <= multiset(s.added);
    PartHasIdsOnce(c.docs, s.added);
  }

  /** No segment has more documents deleted than there are tombstones, or all of them are. */
  ghost predicate AllCoverable(view: seq<Searchable>, tombstones: set<string>)
  {
    forall i :: 0 <= i < |view| ==> Coverable(view[i].ids, tombstones)
  }

  /** So over-fetching by the number of tombstones is enough in each of them. */
  lemma SnapshotCoverable(g: Settings, s: State, engine: Engine)
    requires Inv(g, s) && AddedOnce(s.added)
    ensures AllCoverable(Snapshot(s.segments, engine), s.tombstones)
  {
    forall i | 0 <= i < |s.segments|
      ensures Coverable(Snapshot(s.segments, engine)[i].ids, s.tombstones)
    {
      LiveIdsOnce(g, s, s.segments[i]);
      DistinctIdsCover(IdsIn(s.segments[i].docs), s.tombstones);
    }
  }

  function IdLists(segments: seq<Segment>): (ids: seq<seq<string>>)
    ensures |ids| == |segments| && forall i :: 0 <= i < |ids| ==> ids[i] == IdsIn(segments[i].docs)
  {
    seq(|segments|, i requires 0 <= i < |segments| => IdsIn(segments[i].docs))
  }

  /** Ids added twice or not: a snapshot is exact on every query exactly if all of its
      segments are coverable. */
  lemma SnapshotExactness(segments: seq<Segment>, tombstones: set<string>, engine: Engine)
    ensures AllCoverable(Snapshot(segments, engine), tombstones) <==> SetAlwaysExact(IdLists(segments), tombstones)
  {
    hide SetAlwaysExact, Coverable, IdsIn;
    SetExactness(IdLists(segments), tombstones);
    var view, ids := Snapshot(segments, engine), IdLists(segments);
    assert forall i :: 0 <= i < |segments| ==> view[i].ids == ids[i];
  }

  /** After a delete no search of any later state of a run shows the id, whatever has been
      added, flushed or merged meanwhile. */
  lemma DeletedNeverShown(g: Settings, initial: seq<Segment>, events: seq<Event>, id: string, engine: Engine,
                          matches: seq<set<Result>>, hits: seq<Hit>)
    requires Event.Delete(id) in events
    requires var t := AfterAll(g, initial, events);
      |matches| == |t.segments| && LiveHits(Snapshot(t.segments, engine), t.tombstones, matches, hits)
    ensures forall h :: h in hits ==> h.id != id
  {
    hide AfterAll, Snapshot;
    RunRemembers(g, initial, events);
    assert Event.Delete(id).id in Deleted(events);
  }
}
