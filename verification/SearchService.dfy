/** Answering a request through the result cache, by one worker and by many: a hit gives
    what the search would have given. */
module SearchService {
  import opened Ranking
  import opened Postings
  import opened Corpus
  import opened SearchIndex
  import opened Search
  import opened Analyzer
  import opened CacheKey
  import opened LruCache

  /** What is served: an index of some documents, and the analysis they went through. */
  datatype Site = Site(ix: Index, pipeline: Pipeline)

  ghost predicate ValidSite(site: Site, docs: seq<Document>)
  {
    ValidIndex(site.ix, docs) && |docs| <= NO_DOCID
  }

  /** The answer to a request, as the corpus defines it. */
  ghost function Reply(site: Site, docs: seq<Document>, query: string, k: nat): seq<Result>
  {
    Answer(site.ix, docs, Analysis(site.pipeline, query), k)
  }

  /** A cached value answers every request with its key. */
  ghost predicate Truthful(site: Site, docs: seq<Document>, key: string, value: seq<Result>)
  {
    forall query: string, k: nat :: Key(query, k) == key ==> value == Reply(site, docs, query, k)
  }

  ghost predicate AllTruthful(site: Site, docs: seq<Document>, c: Contents<seq<Result>>)
  {
    forall e :: e in c ==> Truthful(site, docs, e.0, e.1)
  }

  /** Requests with one key have one answer. */
  lemma SameKeySameReply(site: Site, docs: seq<Document>, a: string, k: nat, b: string, m: nat)
    requires Key(a, k) == Key(b, m)
    ensures Reply(site, docs, a, k) == Reply(site, docs, b, m)
  {
    hide Normal, Decimal, Analysis, Answer;
    KeyInjective(Normal(a), k, Normal(b), m);
    AnalysisIgnoresNormalization(site.pipeline, a);
    AnalysisIgnoresNormalization(site.pipeline, b);
  }

  lemma ReplyIsTruthful(site: Site, docs: seq<Document>, query: string, k: nat)
    ensures Truthful(site, docs, Key(query, k), Reply(site, docs, query, k))
  {
    hide Key, Reply;
    forall a: string, m: nat | Key(a, m) == Key(query, k)
      ensures Reply(site, docs, query, k) == Reply(site, docs, a, m)
    {
      SameKeySameReply(site, docs, a, m, query, k);
    }
  }

  lemma GetStaysTruthful(site: Site, docs: seq<Document>, c: Contents<seq<Result>>, key: string)
    requires Distinct(c) && AllTruthful(site, docs, c)
    ensures AllTruthful(site, docs, AfterGet(c, key))
    ensures Has(c, key) ==> Truthful(site, docs, key, c[Find(c, key)].1)
  {
    hide Truthful, AfterGet, Find, Has;
    GetKeeps(c, key);
    assert Has(c, key) ==> c[Find(c, key)] in c;
  }

  lemma PutStaysTruthful(site: Site, docs: seq<Document>, c: Contents<seq<Result>>, capacity: nat,
                         query: string, k: nat)
    requires Distinct(c) && |c| <= capacity && AllTruthful(site, docs, c)
    ensures AllTruthful(site, docs, AfterPut(c, capacity, Key(query, k), Reply(site, docs, query, k)))
  {
    hide Truthful, AfterPut, Reply, Key;
    PutKeeps(c, capacity, Key(query, k), Reply(site, docs, query, k));
    ReplyIsTruthful(site, docs, query, k);
  }

  // ---- one worker ----

  class Service {
    const site: Site
    const algorithm: Algorithm
    const cache: LruCache<seq<Result>>
    ghost const docs: seq<Document>

    ghost predicate Valid()
      reads cache, cache.entries
    {
      cache.Valid() && ValidSite(site, docs) && AllTruthful(site, docs, cache.Holds())
    }

    constructor (site: Site, algorithm: Algorithm, cacheCapacity: nat, ghost docs: seq<Document>)
      requires ValidSite(site, docs)
      ensures Valid() && this.site == site && this.docs == docs && cache.Holds() == []
    {
      this.site, this.algorithm, this.docs := site, algorithm, docs;
      cache := new LruCache(cacheCapacity);
    }

    lemma HoldsDistinct()
      requires cache.Valid()
      ensures Distinct(cache.Holds()) && |cache.Holds()| <= cache.capacity
    {
      KeyIsFound(cache.entries, cache.index, "");
    }

    /** Whether it comes from the cache or from a search, the reply is the corpus's. */
    method HandleQuery(query: string, k: nat) returns (hit: bool, results: seq<Result>)
      requires Valid() && 1 <= k
      modifies cache, cache.entries
      ensures Valid()
      ensures results == Reply(site, docs, query, k)
      ensures hit == Has(old(cache.Holds()), Key(query, k))
      ensures cache.Holds() ==
        if hit then AfterGet(old(cache.Holds()), Key(query, k))
        else AfterPut(old(cache.Holds()), cache.capacity, Key(query, k), results)
    {
      hide ValidIndex, Analysis, Answer, Has, Find, AfterPut, View, Decimal, Normal, AllTruthful, Indexed;
      var normal := Normalize(query);
      var key := normal + "|" + Decimal(k);
      assert key == Key(query, k);
      ghost var before := cache.Holds();
      HoldsDistinct();
      GetStaysTruthful(site, docs, before, key);
      PutStaysTruthful(site, docs, before, cache.capacity, query, k);
      var out;
      hit, out := cache.Get(key);
      if hit {
        assert Truthful(site, docs, key, out[0]);
        return true, out[0];
      }
      assert cache.Holds() == before;
      var terms := Analyze(site.pipeline, query);
      results := Run(site.ix, terms, k, algorithm, docs);
      cache.Put(key, results);
    }
  }

  // ---- many workers ----

  /** How many results a request asks for: the source reads the worst of a full heap, so
      at least one. */
  type Count = k: nat | 1 <= k witness 1

  datatype Request = Request(query: string, k: Count)

  /** The workers share the cache, whose operations are atomic; between a worker's missed
      lookup and its store, others come in. `busy` has the requests being searched for. */
  datatype Floor = Floor(cache: Contents<seq<Result>>, busy: map<nat, Request>, replied: seq<(Request, seq<Result>)>)

  datatype Step = Lookup(worker: nat, request: Request) | Store(worker: nat, results: seq<Result>)

  /** What a search for a request may come back with: the k best of the matches, whichever
      algorithm finds them. */
  ghost predicate Found(site: Site, docs: seq<Document>, r: Request, results: seq<Result>)
  {
    IsTopK(results, CorpusResults(site.ix, docs, Canonical(Analysis(site.pipeline, r.query))), r.k)
  }

  ghost predicate Enabled(site: Site, docs: seq<Document>, s: Floor, step: Step)
  {
    match step
    case Lookup(w, _) => w !in s.busy
    case Store(w, results) => w in s.busy && Found(site, docs, s.busy[w], results)
  }

  /** One atomic step: a lookup replies or sets out to search, a store replies with what
      the search came back with. */
  ghost function After(site: Site, docs: seq<Document>, capacity: nat, s: Floor, step: Step): Floor
    requires Enabled(site, docs, s, step)
  {
    match step
    case Lookup(w, r) =>
      var key := Key(r.query, r.k);
      if Has(s.cache, key) then
        s.(cache := AfterGet(s.cache, key), replied := s.replied + [(r, s.cache[Find(s.cache, key)].1)])
      else s.(busy := s.busy[w := r])
    case Store(w, results) =>
      var r := s.busy[w];
      s.(cache := AfterPut(s.cache, capacity, Key(r.query, r.k), results),
         busy := s.busy - {w},
         replied := s.replied + [(r, results)])
  }

  /** A lookup that hits replies at once with what is cached, one that misses makes its
      worker busy; a store replies, frees the worker and leaves the answer first in the
      cache, so that the next request with its key hits. */
  lemma StepDoes(site: Site, docs: seq<Document>, capacity: nat, s: Floor, step: Step)
    requires Enabled(site, docs, s, step) && Distinct(s.cache) && |s.cache| <= capacity
    ensures var t := After(site, docs, capacity, s, step);
      match step
      case Lookup(w, r) =>
        var key := Key(r.query, r.k);
        && (forall e :: e in t.cache <==> e in s.cache)
        && (Has(s.cache, key) ==>
              t.busy == s.busy && t.replied == s.replied + [(r, s.cache[Find(s.cache, key)].1)])
        && (!Has(s.cache, key) ==> t.replied == s.replied && t.busy == s.busy[w := r])
      case Store(w, results) =>
        var r := s.busy[w];
        && t.replied == s.replied + [(r, results)] && t.busy == s.busy - {w}
        && (0 < capacity ==> t.cache != [] && t.cache[0] == (Key(r.query, r.k), results))
  {
    hide Key, AfterPut, AfterGet, Has, Find, Found;
    match step {
      case Lookup(w, r) => GetKeeps(s.cache, Key(r.query, r.k));
      case Store(w, results) =>
        var r := s.busy[w];
        PutKeeps(s.cache, capacity, Key(r.query, r.k), results);
    }
  }

  /** How many requests some steps begin. */
  function Begun(steps: seq<Step>): nat
  {
    if steps == [] then 0 else Begun(steps[..|steps| - 1]) + if steps[|steps| - 1].Lookup? then 1 else 0
  }

  /** Each request is answered once: those begun have been replied to or are being searched
      for. */
  lemma {:induction false} EachAnsweredOnce(site: Site, docs: seq<Document>, capacity: nat, states: seq<Floor>,
                                             steps: seq<Step>, i: nat)
    requires IsRun(site, docs, capacity, states, steps) && i < |states|
    ensures |states[i].replied| + |states[i].busy| == Begun(steps[..i])
  {
    hide After, Enabled;
    if 0 < i {
      EachAnsweredOnce(site, docs, capacity, states, steps, i - 1);
      assert steps[..i][..i - 1] == steps[..i - 1];
      OneAnswer(site, docs, capacity, states[i - 1], steps[i - 1]);
    }
  }

  lemma OneAnswer(site: Site, docs: seq<Document>, capacity: nat, s: Floor, step: Step)
    requires Enabled(site, docs, s, step)
    ensures var t := After(site, docs, capacity, s, step);
      |t.replied| + |t.busy| == |s.replied| + |s.busy| + if step.Lookup? then 1 else 0
  {
    hide Key, AfterPut, AfterGet, Has, Find, Found;
    if step.Store? {
      assert s.busy == (s.busy - {step.worker})[step.worker := s.busy[step.worker]];
    }
  }

  ghost predicate IsRun(site: Site, docs: seq<Document>, capacity: nat, states: seq<Floor>, steps: seq<Step>)
  {
    && |states| == |steps| + 1 && states[0] == Floor([], map[], [])
    && forall i :: 0 <= i < |steps| ==>
         Enabled(site, docs, states[i], steps[i]) && states[i + 1] == After(site, docs, capacity, states[i], steps[i])
  }

  ghost predicate Sound(site: Site, docs: seq<Document>, capacity: nat, s: Floor)
  {
    && Distinct(s.cache) && |s.cache| <= capacity && AllTruthful(site, docs, s.cache)
    && forall e :: e in s.replied ==> e.1 == Reply(site, docs, e.0.query, e.0.k)
  }

  lemma FoundIsReply(site: Site, docs: seq<Document>, r: Request, results: seq<Result>)
    requires Found(site, docs, r, results)
    ensures results == Reply(site, docs, r.query, r.k)
  {
    hide IsTopK, CorpusResults, Canonical, Analysis;
    var terms := Analysis(site.pipeline, r.query);
    TopKUnique(results, Answer(site.ix, docs, terms, r.k), CorpusResults(site.ix, docs, Canonical(terms)), r.k);
  }

  lemma StepIsSound(site: Site, docs: seq<Document>, capacity: nat, s: Floor, step: Step)
    requires Sound(site, docs, capacity, s) && Enabled(site, docs, s, step)
    ensures Sound(site, docs, capacity, After(site, docs, capacity, s, step))
  {
    hide AllTruthful, Reply, Key, AfterPut, AfterGet, Has, Find, Found;
    match step {
      case Lookup(w, r) =>
        var key := Key(r.query, r.k);
        GetStaysTruthful(site, docs, s.cache, key);
        GetKeeps(s.cache, key);
        if Has(s.cache, key) {
          HitIsReply(site, docs, s.cache, r);
        }
      case Store(w, results) =>
        var r := s.busy[w];
        FoundIsReply(site, docs, r, results);
        PutStaysTruthful(site, docs, s.cache, capacity, r.query, r.k);
        PutKeeps(s.cache, capacity, Key(r.query, r.k), results);
    }
  }

  lemma HitIsReply(site: Site, docs: seq<Document>, c: Contents<seq<Result>>, r: Request)
    requires AllTruthful(site, docs, c) && Has(c, Key(r.query, r.k))
    ensures c[Find(c, Key(r.query, r.k))].1 == Reply(site, docs, r.query, r.k)
  {
    hide Reply, Key, Find, Has;
    var e := c[Find(c, Key(r.query, r.k))];
    assert e in c && Truthful(site, docs, e.0, e.1);
  }

  /** In every interleaving, with whatever algorithm each search is made, every reply is
      the corpus's answer to its request. */
  lemma {:induction false} EveryReplyIsTrue(site: Site, docs: seq<Document>, capacity: nat, states: seq<Floor>,
                                             steps: seq<Step>, i: nat)
    requires IsRun(site, docs, capacity, states, steps) && i < |states|
    ensures Sound(site, docs, capacity, states[i])
  {
    if 0 < i {
      hide Sound, Enabled, After;
      EveryReplyIsTrue(site, docs, capacity, states, steps, i - 1);
      StepIsSound(site, docs, capacity, states[i - 1], steps[i - 1]);
    }
  }
}
