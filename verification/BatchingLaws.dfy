/** What each step of the batched run does, and when a batch goes. */
module BatchingLaws {
  import opened Common
  import opened DynamicBatcher
  import opened BatchingState

  /** Something waits, and a batch is full or its first request has waited long enough. */
  ghost predicate BatchReady(g: Settings, s: State, now: real)
  {
    && s.items != []
    && (g.limits.maxBatchSize <= |s.items| ||
        (s.windowStart.Some? && g.limits.maxWait <= now - s.windowStart.value))
  }

  /** A full batch, or all there is, goes from the front of what waits; what is left has its
      window opened anew. */
  ghost predicate Taken(g: Settings, s: State, t: State, batch: seq<nat>, now: real)
  {
    && batch + t.items == s.items
    && |batch| == (if |s.items| <= g.limits.maxBatchSize then |s.items| else g.limits.maxBatchSize)
    && t.windowStart == (if t.items == [] then None else Some(now))
    && t.batches == (if batch == [] then s.batches else s.batches + [batch])
  }

  /** Nobody comes, goes or is woken. */
  ghost predicate SameCounts(s: State, t: State)
  {
    t.arrived == s.arrived && t.shed == s.shed && t.woken == s.woken && t.scored == s.scored && t.failed == s.failed
  }

  /** A request is shed exactly if as many wait as may; otherwise it waits last, under the
      next number, and the first one to wait opens the window. */
  lemma EnqueueDoes(g: Settings, s: State, now: real)
    ensures var t := After(g, s, Enqueue(now));
      && t.flusher == s.flusher && t.woken == s.woken && t.batches == s.batches && t.scored == s.scored
      && t.stop == s.stop && t.failed == s.failed
      && if g.maxQueueDepth.Some? && g.maxQueueDepth.value <= |s.items| then
           t.shed == s.shed + 1 && t.items == s.items && t.arrived == s.arrived && t.windowStart == s.windowStart
         else
           && t.shed == s.shed && t.items == s.items + [s.arrived] && t.arrived == s.arrived + 1
           && t.windowStart == if s.items == [] then Some(now) else s.windowStart
  {
  }

  /** The flusher takes a batch exactly if one is ready, and then has it at the scorer. */
  lemma PollDoes(g: Settings, s: State, now: real)
    requires 1 <= g.limits.maxBatchSize && s.flusher.Polling?
    ensures var t := After(g, s, Poll(now));
      && SameCounts(s, t) && t.stop == s.stop
      && (s.stop ==> t.flusher.Gone? && t.items == s.items)
      && (!s.stop && !BatchReady(g, s, now) ==> t == s)
      && (!s.stop && BatchReady(g, s, now) ==>
            t.flusher.Scoring? && t.flusher.batch != [] && Taken(g, s, t, t.flusher.batch, now))
  {
    assert s.items == FirstBatch(g, s) + s.items[|FirstBatch(g, s)|..];
  }

  /** What comes back from the scorer is the batch it was given, to be woken either way. */
  lemma ScoreDoes(g: Settings, s: State, ok: bool)
    requires s.flusher.Scoring?
    ensures var t := After(g, s, Score(ok));
      && t == s.(flusher := Waking(s.flusher.batch, !ok), scored := t.scored, failed := t.failed)
      && t.scored == (if ok then s.scored + s.flusher.batch else s.scored)
      && t.failed == (s.failed || !ok)
  {
  }

  /** Requests are woken one by one from the front of the batch; after the last the flusher
      looks for another, or drains if the scorer has failed. */
  lemma WakeDoes(g: Settings, s: State)
    requires s.flusher.Waking?
    ensures var t := After(g, s, WakeOne);
      && t == s.(flusher := t.flusher, woken := t.woken)
      && (s.flusher.left != [] ==>
            && t.flusher.Waking? && t.flusher.failed == s.flusher.failed
            && t.woken + t.flusher.left == s.woken + s.flusher.left && |t.woken| == |s.woken| + 1)
      && (s.flusher.left == [] ==>
            t.woken == s.woken && if s.flusher.failed then t.flusher.Draining? else t.flusher.Polling?)
  {
    if s.flusher.left != [] {
      var left := s.flusher.left;
      assert s.woken + left == (s.woken + [left[0]]) + left[1..];
    }
  }

  /** After a failure what waits is taken without waiting for a batch, and woken unscored. */
  lemma DrainDoes(g: Settings, s: State, now: real)
    requires s.flusher.Draining?
    ensures var t := After(g, s, Drain(now));
      && SameCounts(s, t) && t.stop == s.stop
      && (s.stop ==> t.flusher.Gone? && t.items == s.items)
      && (!s.stop ==> t.flusher.Waking? && t.flusher.failed && Taken(g, s, t, t.flusher.left, now))
  {
    assert s.items == FirstBatch(g, s) + s.items[|FirstBatch(g, s)|..];
  }

  // ---- runs ----

  /** How many requests are made among some events. */
  function Made(events: seq<Event>): nat
  {
    if events == [] then 0 else Made(events[..|events| - 1]) + if events[|events| - 1].Enqueue? then 1 else 0
  }

  /** Each request made has arrived or was shed. */
  lemma {:induction false} ArrivedOrShed(g: Settings, states: seq<State>, events: seq<Event>, i: nat)
    requires IsRun(g, states, events) && i < |states|
    ensures states[i].arrived + states[i].shed == Made(events[..i])
    ensures g.maxQueueDepth.None? ==> states[i].shed == 0
  {
    if 0 < i {
      hide After;
      ArrivedOrShed(g, states, events, i - 1);
      assert events[..i][..i - 1] == events[..i - 1];
      OneMade(g, states[i - 1], events[i - 1]);
    }
  }

  lemma OneMade(g: Settings, s: State, e: Event)
    ensures var t := After(g, s, e);
      t.arrived + t.shed == s.arrived + s.shed + if e.Enqueue? then 1 else 0
    ensures g.maxQueueDepth.None? ==> After(g, s, e).shed == s.shed
  {
  }

  /** Before the scorer fails no batch smaller than the limit is taken from what waits unless
      its first request has waited as long as it may. */
  lemma SmallBatchesWaited(g: Settings, s: State, now: real)
    requires 1 <= g.limits.maxBatchSize && s.flusher.Polling?
    ensures var t := After(g, s, Poll(now));
      t.flusher.Scoring? && |t.flusher.batch| < g.limits.maxBatchSize ==>
        s.windowStart.Some? && g.limits.maxWait <= now - s.windowStart.value && t.items == []
  {
    hide After, Taken;
    PollDoes(g, s, now);
    var t := After(g, s, Poll(now));
    if t.flusher.Scoring? {
      TakenAll(g, s, t, t.flusher.batch, now);
    }
  }

  lemma TakenAll(g: Settings, s: State, t: State, batch: seq<nat>, now: real)
    requires Taken(g, s, t, batch, now)
    ensures |batch| < g.limits.maxBatchSize ==> |s.items| < g.limits.maxBatchSize && t.items == []
  {
    assert |batch + t.items| == |s.items|;
  }

  /** The window is that of the request that has waited longest: it was opened when that one
      came or when the batch before it was taken, and no time before. */
  ghost predicate WindowSince(s: State, t: State, now: real)
  {
    t.windowStart.Some? && t.windowStart != s.windowStart ==> t.windowStart == Some(now)
  }

  lemma WindowOpened(g: Settings, s: State, e: Event, now: real)
    requires (e.Enqueue? || e.Poll? || e.Drain?) ==> e.now == now
    ensures WindowSince(s, After(g, s, e), now)
  {
  }
}
