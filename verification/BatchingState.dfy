/** The batched run as a state machine: dispatching threads and the flusher thread, over
    every interleaving, the scorer failing at any point. */
module BatchingState {
  import opened Common
  import opened DynamicBatcher

  /** The flusher looks for a batch, has one at the scorer, is waking the requests of one,
      or, once the scorer has failed, wakes whatever still arrives. */
  datatype Flusher = Polling | Scoring(batch: seq<nat>) | Waking(left: seq<nat>, failed: bool) | Draining | Gone

  datatype Settings = Settings(limits: Limits, maxQueueDepth: Option<nat>)

  /** Requests are numbered by arrival. `woken` has those whose event is set, in the order
      they were, `scored` the requests of the batches that came back from the scorer. */
  datatype State = State(items: seq<nat>, windowStart: Option<real>, flusher: Flusher, failed: bool, stop: bool,
                         arrived: nat, shed: nat, woken: seq<nat>, batches: seq<seq<nat>>, scored: seq<nat>)

  datatype Event = Enqueue(now: real) | Poll(now: real) | Score(ok: bool) | WakeOne | Drain(now: real) | Stop

  const START := State([], None, Polling, false, false, 0, 0, [], [], [])

  predicate Full(g: Settings, s: State)
  {
    g.maxQueueDepth.Some? && g.maxQueueDepth.value <= |s.items|
  }

  /** A request is shed, or waits in the batcher. */
  function AfterEnqueue(g: Settings, s: State, now: real): State
  {
    if Full(g, s) then s.(shed := s.shed + 1)
    else
      s.(items := s.items + [s.arrived], arrived := s.arrived + 1,
         windowStart := if s.items == [] then Some(now) else s.windowStart)
  }

  function AfterFlush(g: Settings, s: State, now: real): State
  {
    var n := BatchLength(g.limits, |s.items|);
    s.(items := s.items[n..], windowStart := if n < |s.items| then Some(now) else None,
       batches := if n == 0 then s.batches else s.batches + [s.items[..n]])
  }

  function FirstBatch(g: Settings, s: State): seq<nat>
  {
    s.items[..BatchLength(g.limits, |s.items|)]
  }

  function AfterPoll(g: Settings, s: State, now: real): State
  {
    if !s.flusher.Polling? then s
    else if s.stop then s.(flusher := Gone)
    else if !Due(g.limits, |s.items|, s.windowStart, now) then s
    else if FirstBatch(g, s) == [] then AfterFlush(g, s, now)
    else AfterFlush(g, s, now).(flusher := Scoring(FirstBatch(g, s)))
  }

  /** The scorer answers or raises; only then are the requests of the batch woken. */
  function AfterScore(s: State, ok: bool): State
  {
    if !s.flusher.Scoring? then s
    else if ok then s.(flusher := Waking(s.flusher.batch, false), scored := s.scored + s.flusher.batch)
    else s.(flusher := Waking(s.flusher.batch, true), failed := true)
  }

  function AfterWakeOne(s: State): State
  {
    if !s.flusher.Waking? then s
    else if s.flusher.left == [] then s.(flusher := if s.flusher.failed then Draining else Polling)
    else s.(flusher := Waking(s.flusher.left[1..], s.flusher.failed), woken := s.woken + [s.flusher.left[0]])
  }

  function AfterDrain(g: Settings, s: State, now: real): State
  {
    if !s.flusher.Draining? then s
    else if s.stop then s.(flusher := Gone)
    else AfterFlush(g, s, now).(flusher := Waking(FirstBatch(g, s), true))
  }

  /** The run is torn down when all its requests have come back. */
  predicate MayStop(s: State)
  {
    |s.woken| == s.arrived
  }

  /** After the stop no request arrives. */
  predicate Enabled(s: State, e: Event)
  {
    match e
    case Enqueue(_) => !s.stop
    case Stop => MayStop(s)
    case _ => true
  }

  function After(g: Settings, s: State, e: Event): State
  {
    match e
    case Enqueue(now) => AfterEnqueue(g, s, now)
    case Poll(now) => AfterPoll(g, s, now)
    case Score(ok) => AfterScore(s, ok)
    case WakeOne => AfterWakeOne(s)
    case Drain(now) => AfterDrain(g, s, now)
    case Stop => s.(stop := true)
  }

  // ---- the invariant ----

  /** What the flusher holds: taken from the batcher, not yet woken. */
  function InHand(f: Flusher): seq<nat>
  {
    match f
    case Scoring(batch) => batch
    case Waking(left, _) => left
    case _ => []
  }

  function Arrivals(n: nat): (all: seq<nat>)
    ensures |all| == n && forall i :: 0 <= i < n ==> all[i] == i
  {
    seq(n, i => i)
  }

  function Flat(batches: seq<seq<nat>>): seq<nat>
  {
    if batches == [] then [] else Flat(batches[..|batches| - 1]) + batches[|batches| - 1]
  }

  /** No request is stranded, lost or served twice or out of turn: in order of arrival,
      those woken, those in the flusher's hands and those in the batcher are all of them. */
  ghost predicate NoneStranded(s: State)
  {
    s.woken + InHand(s.flusher) + s.items == Arrivals(s.arrived)
  }

  /** Batches are full-size at most, and one after the other they are the arrivals taken. */
  ghost predicate BatchesInOrder(g: Settings, s: State)
  {
    && Flat(s.batches) == s.woken + InHand(s.flusher)
    && forall i :: 0 <= i < |s.batches| ==> 0 < |s.batches[i]| <= g.limits.maxBatchSize
  }

  /** Until the scorer fails, nobody is woken whose batch has not been scored. */
  ghost predicate WokenScored(s: State)
  {
    && (s.flusher.Draining? || (s.flusher.Waking? && s.flusher.failed) ==> s.failed)
    && (!s.failed ==> s.scored == s.woken + if s.flusher.Waking? then s.flusher.left else [])
  }

  ghost predicate Inv(g: Settings, s: State)
  {
    && NoneStranded(s) && BatchesInOrder(g, s) && WokenScored(s)
    && (g.maxQueueDepth.Some? ==> |s.items| <= g.maxQueueDepth.value)
    && (s.items == [] <==> s.windowStart.None?)
    && (s.stop ==> |s.woken| == s.arrived)
    && (s.flusher.Gone? ==> s.stop)
    && (s.flusher.Scoring? ==> s.flusher.batch != [])
  }

  lemma StartKeeps(g: Settings)
    ensures Inv(g, START)
  {
    assert Arrivals(0) == [];
  }

  lemma EnqueueKeeps(g: Settings, s: State, now: real)
    requires Inv(g, s) && !s.stop
    ensures Inv(g, AfterEnqueue(g, s, now))
  {
    if !Full(g, s) {
      var t := AfterEnqueue(g, s, now);
      var done := s.woken + InHand(s.flusher);
      assert done + (s.items + [s.arrived]) == (done + s.items) + [s.arrived];
      assert Arrivals(t.arrived) == Arrivals(s.arrived) + [s.arrived];
    }
  }

  /** A flush moves the first batch from the batcher into hands that were empty. */
  lemma FlushKeeps(g: Settings, s: State, now: real, f: Flusher)
    requires Inv(g, s) && InHand(s.flusher) == [] && !s.stop && InHand(f) == FirstBatch(g, s)
    requires !f.Gone? && (f.Scoring? ==> f.batch != [])
    requires WokenScored(AfterFlush(g, s, now).(flusher := f))
    ensures Inv(g, AfterFlush(g, s, now).(flusher := f))
  {
    hide Flat, Arrivals, WokenScored;
    var t := AfterFlush(g, s, now).(flusher := f);
    var first := FirstBatch(g, s);
    assert s.items == first + t.items;
    assert s.woken + first + t.items == s.woken + [] + (first + t.items);
    if first != [] {
      FlatPush(s.batches, first);
    }
    assert s.woken + [] == s.woken;
  }

  lemma FlatPush(batches: seq<seq<nat>>, batch: seq<nat>)
    ensures Flat(batches + [batch]) == Flat(batches) + batch
  {
    assert (batches + [batch])[..|batches|] == batches;
  }

  lemma WakeKeeps(g: Settings, s: State)
    requires Inv(g, s)
    ensures Inv(g, AfterWakeOne(s))
  {
    if s.flusher.Waking? && s.flusher.left != [] {
      var left := s.flusher.left;
      assert s.woken + left == (s.woken + [left[0]]) + left[1..];
    }
  }

  lemma StepKeeps(g: Settings, s: State, e: Event)
    requires Inv(g, s) && Enabled(s, e)
    ensures Inv(g, After(g, s, e))
  {
    hide Flat;
    match e {
      case Enqueue(now) => EnqueueKeeps(g, s, now);
      case Poll(now) =>
        if s.flusher.Polling? && !s.stop && Due(g.limits, |s.items|, s.windowStart, now) {
          var first := FirstBatch(g, s);
          FlushKeeps(g, s, now, if first == [] then Polling else Scoring(first));
        }
      case Score(ok) =>
      case WakeOne => WakeKeeps(g, s);
      case Drain(now) =>
        if s.flusher.Draining? && !s.stop {
          FlushKeeps(g, s, now, Waking(FirstBatch(g, s), true));
        }
      case Stop =>
    }
  }

  // ---- runs ----

  ghost predicate IsRun(g: Settings, states: seq<State>, events: seq<Event>)
  {
    && |states| == |events| + 1 && states[0] == START
    && forall i :: 0 <= i < |events| ==>
         Enabled(states[i], events[i]) && states[i + 1] == After(g, states[i], events[i])
  }

  /** In every interleaving. */
  lemma {:induction false} RunKeeps(g: Settings, states: seq<State>, events: seq<Event>, i: nat)
    requires IsRun(g, states, events) && i < |states|
    ensures Inv(g, states[i])
  {
    hide Inv;
    if i == 0 {
      StartKeeps(g);
    } else {
      RunKeeps(g, states, events, i - 1);
      StepKeeps(g, states[i - 1], events[i - 1]);
    }
  }

  // ---- everyone is woken ----

  /** The flusher's next step, the batch window having passed. */
  ghost predicate FlusherMoves(g: Settings, s: State, e: Event)
  {
    match s.flusher
    case Polling => e.Poll? && Due(g.limits, |s.items|, s.windowStart, e.now)
    case Scoring(_) => e.Score?
    case Waking(_, _) => e.WakeOne?
    case Draining => e.Drain?
    case Gone => false
  }

  function Phase(f: Flusher): nat
  {
    match f
    case Waking(left, _) => if left == [] then 3 else 0
    case Scoring(_) => 1
    case _ => 2
  }

  /** How far request r is from being woken. */
  function Distance(s: State, r: nat): nat
    requires |s.woken| <= r
  {
    4 * (r - |s.woken|) + Phase(s.flusher)
  }

  /** A waiting request always has a flusher step ahead of it, each such step brings it
      nearer, whether the scorer answers or raises, and nothing else that happens takes it
      further away: so every request is woken. */
  lemma Progress(g: Settings, s: State, e: Event, r: nat)
    requires Inv(g, s) && Enabled(s, e) && 1 <= g.limits.maxBatchSize && |s.woken| <= r < s.arrived
    ensures var t := After(g, s, e);
      || |t.woken| > r
      || (Distance(t, r) <= Distance(s, r) && (FlusherMoves(g, s, e) ==> Distance(t, r) < Distance(s, r)))
    ensures exists move :: FlusherMoves(g, s, move)
  {
    assert |s.woken + InHand(s.flusher) + s.items| == s.arrived;
    match s.flusher {
      case Polling =>
        assert s.items != [];
        assert FlusherMoves(g, s, Poll(s.windowStart.value + g.limits.maxWait));
      case Scoring(_) =>
        assert FlusherMoves(g, s, Score(true));
      case Waking(_, _) =>
        assert FlusherMoves(g, s, WakeOne);
      case Draining =>
        assert FlusherMoves(g, s, Drain(0.0));
    }
  }

  /** A batch limit of zero wakes nobody, in any run: all that arrive wait in the batcher,
      the flusher never gets past looking for a batch, and the run can stop only if
      nothing has arrived. */
  lemma {:induction false} ZeroLimitStrands(g: Settings, states: seq<State>, events: seq<Event>, i: nat)
    requires IsRun(g, states, events) && i < |states| && g.limits.maxBatchSize == 0
    ensures states[i].woken == [] && states[i].items == Arrivals(states[i].arrived)
    ensures states[i].stop ==> states[i].arrived == 0
    ensures states[i].flusher.Polling? || (states[i].flusher.Gone? && states[i].stop)
  {
    if i == 0 {
      assert Arrivals(0) == [];
    } else {
      ZeroLimitStrands(g, states, events, i - 1);
      var s := states[i - 1];
      assert Arrivals(s.arrived + 1) == Arrivals(s.arrived) + [s.arrived];
      assert s.items[0..] == s.items;
    }
  }
}
