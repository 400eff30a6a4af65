/** Segments of the near-real-time index and the policy that chooses which to merge. */
module MergePolicy {
  import opened Common
  import opened StableSort

  datatype Doc = Doc(id: string, text: string)

  /** A segment: the number that names its files and is its identity, and what was
      written to its source file. Numbers from zero up are those of the index's own
      directory; a negative one stands for files that are elsewhere. */
  datatype Segment = Segment(id: int, docs: seq<Doc>)

  /** All the documents of some segments, in order. */
  function Concat(segments: seq<Segment>): seq<Doc>
  {
    if segments == [] then [] else segments[0].docs + Concat(segments[1..])
  }

  /** The same, as a multiset. */
  function Docs(segments: seq<Segment>): multiset<Doc>
  {
    if segments == [] then multiset{} else multiset(segments[0].docs) + Docs(segments[1..])
  }

  lemma {:induction false} ConcatDocs(segments: seq<Segment>)
    ensures multiset(Concat(segments)) == Docs(segments)
  {
    if segments != [] {
      ConcatDocs(segments[1..]);
    }
  }

  lemma {:induction false} DocsAppend(a: seq<Segment>, b: seq<Segment>)
    ensures Docs(a + b) == Docs(a) + Docs(b)
  {
    if a == [] {
      assert a + b == b;
    } else {
      assert (a + b)[1..] == a[1..] + b;
      DocsAppend(a[1..], b);
    }
  }

  ghost predicate DistinctIds(segments: seq<Segment>)
  {
    forall i, j :: 0 <= i < j < |segments| ==> segments[i].id != segments[j].id
  }

  /** The segments with none of some ids. */
  function Kept(segments: seq<Segment>, ids: set<int>): (kept: seq<Segment>)
    ensures forall c :: c in kept <==> c in segments && c.id !in ids
    ensures |kept| <= |segments|
  {
    if segments == [] then []
    else
      var rest := Kept(segments[1..], ids);
      if segments[0].id in ids then rest else [segments[0]] + rest
  }

  lemma {:induction false} KeptSame(segments: seq<Segment>, ids: set<int>, id: int)
    requires forall c :: c in segments ==> c.id != id
    ensures Kept(segments, ids + {id}) == Kept(segments, ids)
  {
    if segments != [] {
      KeptSame(segments[1..], ids, id);
    }
  }

  /** Leaving one more segment out takes its documents, and nothing else, away. */
  lemma {:induction false} KeptOneLess(segments: seq<Segment>, ids: set<int>, c: Segment)
    requires DistinctIds(segments) && c in segments && c.id !in ids
    ensures Docs(Kept(segments, ids)) == Docs(Kept(segments, ids + {c.id})) + multiset(c.docs)
    ensures |Kept(segments, ids)| == |Kept(segments, ids + {c.id})| + 1
  {
    if segments[0] == c {
      assert forall d :: d in segments[1..] ==> d.id != c.id;
      KeptSame(segments[1..], ids, c.id);
    } else {
      KeptOneLess(segments[1..], ids, c);
    }
  }

  function IdsOf(chosen: seq<Segment>): (ids: set<int>)
    ensures forall n :: n in ids <==> exists i :: 0 <= i < |chosen| && chosen[i].id == n
  {
    if chosen == [] then {}
    else
      assert forall i :: 0 <= i < |chosen[1..]| ==> chosen[1..][i] == chosen[i + 1];
      IdsOf(chosen[1..]) + {chosen[0].id}
  }

  lemma {:induction false} KeptWithout(segments: seq<Segment>, chosen: seq<Segment>)
    requires DistinctIds(segments) && DistinctIds(chosen) && forall c :: c in chosen ==> c in segments
    ensures Docs(segments) == Docs(Kept(segments, IdsOf(chosen))) + Docs(chosen)
    ensures |segments| == |Kept(segments, IdsOf(chosen))| + |chosen|
  {
    if chosen == [] {
      KeptAll(segments);
      assert Docs(chosen) == multiset{};
    } else {
      var c, rest := chosen[0], chosen[1..];
      KeptWithout(segments, rest);
      assert c.id !in IdsOf(rest);
      KeptOneLess(segments, IdsOf(rest), c);
      AddLast(Docs(Kept(segments, IdsOf(chosen))), multiset(c.docs), Docs(rest));
    }
  }

  lemma AddLast<T>(a: multiset<T>, b: multiset<T>, c: multiset<T>)
    ensures (a + b) + c == a + (b + c)
  {
  }

  lemma {:induction false} KeptAll(segments: seq<Segment>)
    ensures Kept(segments, {}) == segments
  {
    if segments != [] {
      KeptAll(segments[1..]);
    }
  }

  lemma {:induction false} KeptDistinct(segments: seq<Segment>, ids: set<int>)
    requires DistinctIds(segments)
    ensures DistinctIds(Kept(segments, ids))
  {
    if segments != [] {
      KeptDistinct(segments[1..], ids);
      var rest := Kept(segments[1..], ids);
      assert forall i :: 0 <= i < |rest| ==> rest[i] in rest;
    }
  }

  lemma {:induction false} DocsOfMember(segments: seq<Segment>, c: Segment)
    requires c in segments
    ensures |c.docs| <= |Docs(segments)|
  {
    if c != segments[0] {
      DocsOfMember(segments[1..], c);
    }
  }

  // ---- the policy ----

  datatype Policy = Policy(mergeFactor: nat, maxSegments: nat)

  function Size(c: Segment): real { |c.docs| as real }

  function Least(n: nat, m: nat): nat { if n < m then n else m }

  function MaybeMerge(p: Policy, segments: seq<Segment>): Option<seq<Segment>>
  {
    if |segments| <= p.maxSegments then None
    else
      var bySize := Sort(segments, Size);
      Some(bySize[..Least(p.mergeFactor, |bySize|)])
  }

  lemma {:induction false} SameMembersDistinct(a: seq<Segment>, b: seq<Segment>)
    requires multiset(a) == multiset(b) && DistinctIds(a)
    ensures DistinctIds(b)
  {
    forall i, j | 0 <= i < j < |b|
      ensures b[i].id != b[j].id
    {
      if b[i].id == b[j].id {
        assert b[i] in multiset(b) && b[j] in multiset(b);
        var k :| 0 <= k < |a| && a[k] == b[i];
        var m :| 0 <= m < |a| && a[m] == b[j];
        assert k == m;
        TwiceIsTwo(b, i, j);
        OnceIsOne(a, k);
      }
    }
  }

  lemma TwiceIsTwo(b: seq<Segment>, i: nat, j: nat)
    requires i < j < |b| && b[i] == b[j]
    ensures 2 <= multiset(b)[b[i]]
  {
    assert b == b[..i] + [b[i]] + b[i + 1..j] + [b[j]] + b[j + 1..];
  }

  lemma OnceIsOne(a: seq<Segment>, k: nat)
    requires k < |a| && DistinctIds(a)
    ensures multiset(a)[a[k]] == 1
  {
    assert a == a[..k] + [a[k]] + a[k + 1..];
    assert a[k] !in multiset(a[..k]) && a[k] !in multiset(a[k + 1..]);
  }

  /** A plan is the smallest segments, each chosen once: no segment left out is smaller
      than one chosen. */
  lemma PlanIsSmallest(p: Policy, segments: seq<Segment>)
    requires DistinctIds(segments)
    ensures var plan := MaybeMerge(p, segments);
      && (plan.None? <==> |segments| <= p.maxSegments)
      && (plan.Some? ==>
            && |plan.value| == Least(p.mergeFactor, |segments|) && DistinctIds(plan.value)
            && (forall c :: c in plan.value ==> c in segments)
            && forall c, d :: c in plan.value && d in segments && d !in plan.value ==> |c.docs| <= |d.docs|)
  {
    hide Sort;
    if p.maxSegments < |segments| {
      var bySize := Sort(segments, Size);
      var plan := MaybeMerge(p, segments).value;
      SortPermutes(segments, Size);
      SameMembersDistinct(segments, bySize);
      SortAscends(segments, Size);
    }
  }

  /** A segment larger than every other one is chosen exactly when all of them are, which
      a merge factor up to the segment limit rules out. */
  lemma LargestChosen(p: Policy, segments: seq<Segment>, c: Segment)
    requires DistinctIds(segments) && c in segments && p.maxSegments < |segments|
    requires forall d :: d in segments && d != c ==> |d.docs| < |c.docs|
    ensures c in MaybeMerge(p, segments).value <==> |segments| <= p.mergeFactor
    ensures p.mergeFactor <= p.maxSegments ==> c !in MaybeMerge(p, segments).value
  {
    hide Sort;
    PlanIsSmallest(p, segments);
    var plan := MaybeMerge(p, segments).value;
    var bySize := Sort(segments, Size);
    SortPermutes(segments, Size);
    if |segments| <= p.mergeFactor {
      assert plan == bySize && c in bySize;
    } else {
      var last := bySize[|bySize| - 1];
      SameMembersDistinct(segments, bySize);
      assert forall i :: 0 <= i < |plan| ==> bySize[i].id != last.id;
      assert last in bySize && last !in plan;
    }
  }
}
