/** The bounded queue and its workers as a state machine over every interleaving. */
module PoolState {

  /** A worker is about to look at the queue with the lock held, asleep on the condition
      variable, running a task, or gone. */
  datatype Worker<T> = Popping | Waiting | Running(task: T) | Exited

  datatype State<T> = State(items: seq<T>, shuttingDown: bool, workers: seq<Worker<T>>,
                            accepted: seq<T>, dequeued: seq<T>, finished: seq<T>)

  /** `Submit` names the worker that `notify_one` wakes, if any sleeps; `Wake` is a
      spurious wake-up. */
  datatype Event<T> =
    | Submit(task: T, woken: nat)
    | Pop(worker: nat)
    | Finish(worker: nat)
    | Wake(worker: nat)
    | Shutdown

  function Start<T>(numWorkers: nat): State<T>
  {
    State([], false, seq(numWorkers, i => Popping), [], [], [])
  }

  function NotifyOne<T>(workers: seq<Worker<T>>, w: nat): seq<Worker<T>>
  {
    if w < |workers| && workers[w].Waiting? then workers[w := Popping] else workers
  }

  function NotifyAll<T>(workers: seq<Worker<T>>): (woken: seq<Worker<T>>)
    ensures |woken| == |workers|
    ensures forall i :: 0 <= i < |woken| ==> woken[i] == if workers[i].Waiting? then Popping else workers[i]
  {
    seq(|workers|, i requires 0 <= i < |workers| => if workers[i].Waiting? then Popping else workers[i])
  }

  function AfterSubmit<T>(capacity: nat, s: State<T>, task: T, w: nat): State<T>
  {
    if |s.items| >= capacity then s
    else s.(items := s.items + [task], accepted := s.accepted + [task], workers := NotifyOne(s.workers, w))
  }

  /** The wait's condition is looked at with the lock held: go on, sleep, or leave. */
  function AfterPop<T>(s: State<T>, w: nat): State<T>
    requires w < |s.workers| && s.workers[w].Popping?
  {
    if s.items == [] && !s.shuttingDown then s.(workers := s.workers[w := Waiting])
    else if s.items == [] then s.(workers := s.workers[w := Exited])
    else
      s.(items := s.items[1..], dequeued := s.dequeued + [s.items[0]],
         workers := s.workers[w := Running(s.items[0])])
  }

  function AfterFinish<T>(s: State<T>, w: nat): State<T>
    requires w < |s.workers| && s.workers[w].Running?
  {
    s.(finished := s.finished + [s.workers[w].task], workers := s.workers[w := Popping])
  }

  /** What can happen in a state. Submitting after shutdown is not part of a run. */
  ghost predicate Enabled<T>(s: State<T>, e: Event<T>)
  {
    match e
    case Submit(_, w) =>
      !s.shuttingDown && ((exists i :: 0 <= i < |s.workers| && s.workers[i].Waiting?) ==>
                          w < |s.workers| && s.workers[w].Waiting?)
    case Pop(w) => w < |s.workers| && s.workers[w].Popping?
    case Finish(w) => w < |s.workers| && s.workers[w].Running?
    case Wake(w) => w < |s.workers| && s.workers[w].Waiting?
    case Shutdown => true
  }

  ghost function After<T>(capacity: nat, s: State<T>, e: Event<T>): State<T>
    requires Enabled(s, e)
  {
    match e
    case Submit(task, w) => AfterSubmit(capacity, s, task, w)
    case Pop(w) => AfterPop(s, w)
    case Finish(w) => AfterFinish(s, w)
    case Wake(w) => s.(workers := s.workers[w := Popping])
    case Shutdown => s.(shuttingDown := true, workers := NotifyAll(s.workers))
  }

  // ---- counting workers ----

  function Poppers<T>(workers: seq<Worker<T>>): nat
  {
    if workers == [] then 0 else Poppers(workers[..|workers| - 1]) + if workers[|workers| - 1].Popping? then 1 else 0
  }

  /** The tasks being run. */
  function Tasks<T>(workers: seq<Worker<T>>): multiset<T>
  {
    if workers == [] then multiset{}
    else Tasks(workers[..|workers| - 1]) + TaskOf(workers[|workers| - 1])
  }

  function TaskOf<T>(w: Worker<T>): multiset<T>
  {
    if w.Running? then multiset{w.task} else multiset{}
  }

  lemma {:induction false} PoppersUpdate<T>(workers: seq<Worker<T>>, i: nat, w: Worker<T>)
    requires i < |workers|
    ensures Poppers(workers[i := w]) + (if workers[i].Popping? then 1 else 0) ==
            Poppers(workers) + if w.Popping? then 1 else 0
  {
    var n := |workers| - 1;
    if i < n {
      assert workers[i := w][..n] == workers[..n][i := w];
      PoppersUpdate(workers[..n], i, w);
    } else {
      assert workers[i := w][..n] == workers[..n];
    }
  }

  lemma {:induction false} TasksShift<T>(workers: seq<Worker<T>>, i: nat, w: Worker<T>)
    requires i < |workers|
    ensures Tasks(workers[i := w]) + TaskOf(workers[i]) == Tasks(workers) + TaskOf(w)
  {
    hide Tasks, TaskOf;
    var n := |workers| - 1;
    if i < n {
      TasksShift(workers[..n], i, w);
      EarlierUpdated(workers, i, w);
    } else {
      LastUpdated(workers, w);
    }
  }

  lemma TasksUpdate<T>(workers: seq<Worker<T>>, i: nat, w: Worker<T>)
    requires i < |workers|
    ensures !workers[i].Running? && !w.Running? ==> Tasks(workers[i := w]) == Tasks(workers)
    ensures !workers[i].Running? && w.Running? ==> Tasks(workers[i := w]) == Tasks(workers) + multiset{w.task}
    ensures workers[i].Running? && !w.Running? ==> Tasks(workers) == Tasks(workers[i := w]) + multiset{workers[i].task}
  {
    hide Tasks;
    TasksShift(workers, i, w);
    var before, after := Tasks(workers), Tasks(workers[i := w]);
    assert before + multiset{} == before && after + multiset{} == after;
  }

  /** An update before the last worker changes the tasks as it changes those of the others. */
  lemma EarlierUpdated<T>(workers: seq<Worker<T>>, i: nat, w: Worker<T>)
    requires i < |workers| - 1
    requires Tasks(workers[..|workers| - 1][i := w]) + TaskOf(workers[i]) ==
             Tasks(workers[..|workers| - 1]) + TaskOf(w)
    ensures Tasks(workers[i := w]) + TaskOf(workers[i]) == Tasks(workers) + TaskOf(w)
  {
    hide Tasks, TaskOf;
    var n := |workers| - 1;
    TasksLast(workers);
    TasksLast(workers[i := w]);
    assert workers[i := w][..n] == workers[..n][i := w];
    SwapLast(Tasks(workers[..n][i := w]), TaskOf(workers[n]), TaskOf(workers[i]));
    SwapLast(Tasks(workers[..n]), TaskOf(w), TaskOf(workers[n]));
  }

  lemma LastUpdated<T>(workers: seq<Worker<T>>, w: Worker<T>)
    requires workers != []
    ensures var n := |workers| - 1;
      Tasks(workers[n := w]) + TaskOf(workers[n]) == Tasks(workers) + TaskOf(w)
  {
    hide Tasks, TaskOf;
    var n := |workers| - 1;
    TasksLast(workers);
    TasksLast(workers[n := w]);
    assert workers[n := w][..n] == workers[..n];
    SwapLast(Tasks(workers[..n]), TaskOf(w), TaskOf(workers[n]));
  }

  lemma TasksLast<T>(workers: seq<Worker<T>>)
    requires workers != []
    ensures Tasks(workers) == Tasks(workers[..|workers| - 1]) + TaskOf(workers[|workers| - 1])
  {
  }

  lemma SwapLast<T>(a: multiset<T>, b: multiset<T>, c: multiset<T>)
    ensures a + b + c == a + c + b
  {
  }

  lemma {:induction false} NotifyAllTasks<T>(workers: seq<Worker<T>>)
    ensures Tasks(NotifyAll(workers)) == Tasks(workers)
  {
    if workers != [] {
      NotifyAllTasks(workers[..|workers| - 1]);
      assert NotifyAll(workers)[..|workers| - 1] == NotifyAll(workers[..|workers| - 1]);
    }
  }

  lemma {:induction false} NoTasks<T>(workers: seq<Worker<T>>)
    requires forall i :: 0 <= i < |workers| ==> !workers[i].Running?
    ensures Tasks(workers) == multiset{}
  {
    if workers != [] {
      NoTasks(workers[..|workers| - 1]);
    }
  }

  // ---- what every step keeps ----

  /** First in, first out, each once: what was accepted is what was taken out followed by
      what is in the queue. */
  ghost predicate InOrder<T>(s: State<T>)
  {
    s.accepted == s.dequeued + s.items
  }

  /** What was taken out has been run or is being run, each exactly once. */
  ghost predicate EachOnce<T>(s: State<T>)
  {
    multiset(s.dequeued) == multiset(s.finished) + Tasks(s.workers)
  }

  /** No lost wake-up: while a worker sleeps, there is for each queued task a worker of its
      own awake and on its way to the queue. */
  ghost predicate NoLostWakeup<T>(s: State<T>)
  {
    forall i :: 0 <= i < |s.workers| && s.workers[i].Waiting? ==> |s.items| <= Poppers(s.workers) && !s.shuttingDown
  }

  ghost predicate ExitsClean<T>(s: State<T>)
  {
    forall i :: 0 <= i < |s.workers| && s.workers[i].Exited? ==> s.shuttingDown && s.items == []
  }

  ghost predicate Inv<T>(capacity: nat, s: State<T>)
  {
    |s.items| <= capacity && InOrder(s) && EachOnce(s) && NoLostWakeup(s) && ExitsClean(s)
  }

  lemma SubmitKeeps<T>(capacity: nat, s: State<T>, task: T, w: nat)
    requires Inv(capacity, s) && Enabled(s, Submit(task, w))
    ensures Inv(capacity, After(capacity, s, Submit(task, w)))
  {
    hide Tasks, Poppers;
    if |s.items| < capacity {
      var t := After(capacity, s, Submit(task, w));
      assert t.accepted == t.dequeued + t.items;
      if w < |s.workers| && s.workers[w].Waiting? {
        PoppersUpdate(s.workers, w, Popping);
        TasksUpdate(s.workers, w, Popping);
      }
    }
  }

  lemma PopKeeps<T>(capacity: nat, s: State<T>, w: nat)
    requires Inv(capacity, s) && Enabled(s, Pop(w))
    ensures Inv(capacity, After(capacity, s, Pop(w)))
  {
    hide Tasks, Poppers;
    var t := After(capacity, s, Pop(w));
    PoppersUpdate(s.workers, w, t.workers[w]);
    if s.items != [] {
      assert s.items == [s.items[0]] + s.items[1..];
      assert InOrder(t);
    }
    PopEachOnce(s, w);
  }

  lemma PopEachOnce<T>(s: State<T>, w: nat)
    requires EachOnce(s) && w < |s.workers| && s.workers[w].Popping?
    ensures EachOnce(AfterPop(s, w))
  {
    hide Tasks;
    TasksUpdate(s.workers, w, AfterPop(s, w).workers[w]);
  }

  lemma FinishKeeps<T>(capacity: nat, s: State<T>, w: nat)
    requires Inv(capacity, s) && Enabled(s, Finish(w))
    ensures Inv(capacity, After(capacity, s, Finish(w)))
  {
    hide Tasks, Poppers;
    PoppersUpdate(s.workers, w, Popping);
    TasksUpdate(s.workers, w, Popping);
    SwapLast(multiset(s.finished), Tasks(s.workers[w := Popping]), multiset{s.workers[w].task});
  }

  lemma WakeKeeps<T>(capacity: nat, s: State<T>, w: nat)
    requires Inv(capacity, s) && Enabled(s, Wake(w))
    ensures Inv(capacity, After(capacity, s, Wake(w)))
  {
    hide Tasks, Poppers;
    PoppersUpdate(s.workers, w, Popping);
    TasksUpdate(s.workers, w, Popping);
  }

  lemma StepKeeps<T>(capacity: nat, s: State<T>, e: Event<T>)
    requires Inv(capacity, s) && Enabled(s, e)
    ensures Inv(capacity, After(capacity, s, e)) && |After(capacity, s, e).workers| == |s.workers|
    ensures s.shuttingDown ==> After(capacity, s, e).accepted == s.accepted
  {
    hide Inv;
    match e {
      case Submit(task, w) => SubmitKeeps(capacity, s, task, w);
      case Pop(w) => PopKeeps(capacity, s, w);
      case Finish(w) => FinishKeeps(capacity, s, w);
      case Wake(w) => WakeKeeps(capacity, s, w);
      case Shutdown => ShutdownKeeps(capacity, s);
    }
  }

  /** Shutting down sets the flag and wakes every sleeper; queued tasks stay queued and
      running ones go on. */
  lemma ShutdownKeeps<T>(capacity: nat, s: State<T>)
    requires Inv(capacity, s)
    ensures Inv(capacity, After(capacity, s, Shutdown))
    ensures var t := After(capacity, s, Shutdown);
      && t.shuttingDown && NoneAsleep(t.workers)
      && t.items == s.items && t.accepted == s.accepted && t.dequeued == s.dequeued && t.finished == s.finished
      && |t.workers| == |s.workers|
      && forall w :: 0 <= w < |s.workers| ==>
           if s.workers[w].Waiting? then t.workers[w].Popping? else t.workers[w] == s.workers[w]
  {
    NotifyAllTasks(s.workers);
  }

  ghost predicate NoneAsleep<T>(workers: seq<Worker<T>>)
  {
    forall w :: 0 <= w < |workers| ==> !workers[w].Waiting?
  }

  // ---- what every step does ----

  /** Of the workers only one changes. */
  ghost predicate OnlyWorker<T>(before: seq<Worker<T>>, after: seq<Worker<T>>, w: nat)
  {
    |after| == |before| && forall i :: 0 <= i < |before| && i != w ==> after[i] == before[i]
  }

  /** A task is accepted, at the end of the queue, exactly if there is room; then the sleeper
      named, if any sleeps, goes back to the queue. */
  lemma SubmitDoes<T>(capacity: nat, s: State<T>, task: T, w: nat)
    requires Enabled(s, Submit(task, w))
    ensures var t := After(capacity, s, Submit(task, w));
      && t.dequeued == s.dequeued && t.finished == s.finished && t.shuttingDown == s.shuttingDown
      && (capacity <= |s.items| ==> t == s)
      && (|s.items| < capacity ==>
            && t.items == s.items + [task] && t.accepted == s.accepted + [task]
            && OnlyWorker(s.workers, t.workers, w)
            && (!NoneAsleep(s.workers) ==> t.workers[w].Popping? && s.workers[w].Waiting?)
            && (NoneAsleep(s.workers) ==> t.workers == s.workers))
  {
  }

  /** A worker at the queue takes the first task; with none it sleeps, or leaves if the pool
      is shutting down. */
  lemma PopDoes<T>(capacity: nat, s: State<T>, w: nat)
    requires Enabled(s, Pop(w))
    ensures var t := After(capacity, s, Pop(w));
      && t.accepted == s.accepted && t.finished == s.finished && t.shuttingDown == s.shuttingDown
      && OnlyWorker(s.workers, t.workers, w)
      && s.dequeued + s.items == t.dequeued + t.items
      && (s.items != [] ==> |t.items| == |s.items| - 1 && t.workers[w] == Running(s.items[0]))
      && (s.items == [] && !s.shuttingDown ==> t.workers[w].Waiting? && t.items == [])
      && (s.items == [] && s.shuttingDown ==> t.workers[w].Exited? && t.items == [])
  {
    assert s.items != [] ==> s.items == [s.items[0]] + s.items[1..];
  }

  /** A worker whose task has ended is at the queue again, and its task counts as run. */
  lemma FinishDoes<T>(capacity: nat, s: State<T>, w: nat)
    requires Enabled(s, Finish(w))
    ensures var t := After(capacity, s, Finish(w));
      && t.items == s.items && t.accepted == s.accepted && t.dequeued == s.dequeued
      && t.shuttingDown == s.shuttingDown && OnlyWorker(s.workers, t.workers, w)
      && t.finished == s.finished + [s.workers[w].task] && t.workers[w].Popping?
  {
  }

  /** A worker that wakes for no reason is at the queue again, and that is all. */
  lemma WakeDoes<T>(capacity: nat, s: State<T>, w: nat)
    requires Enabled(s, Wake(w))
    ensures var t := After(capacity, s, Wake(w));
      && t == s.(workers := t.workers) && OnlyWorker(s.workers, t.workers, w) && t.workers[w].Popping?
  {
  }

  // ---- whole runs ----

  ghost predicate IsRun<T>(capacity: nat, numWorkers: nat, states: seq<State<T>>, events: seq<Event<T>>)
  {
    && |states| == |events| + 1 && states[0] == Start(numWorkers)
    && forall i :: 0 <= i < |events| ==>
         Enabled(states[i], events[i]) && states[i + 1] == After(capacity, states[i], events[i])
  }

  lemma {:induction false} StartKeeps<T>(capacity: nat, numWorkers: nat)
    ensures Inv(capacity, Start<T>(numWorkers))
  {
    NoTasks(Start<T>(numWorkers).workers);
  }

  lemma {:induction false} RunKeeps<T>(capacity: nat, numWorkers: nat, states: seq<State<T>>, events: seq<Event<T>>,
                                       i: nat)
    requires IsRun(capacity, numWorkers, states, events) && i < |states|
    ensures Inv(capacity, states[i]) && |states[i].workers| == numWorkers
  {
    hide Inv;
    if i == 0 {
      StartKeeps<T>(capacity, numWorkers);
    } else {
      RunKeeps(capacity, numWorkers, states, events, i - 1);
      StepKeeps(capacity, states[i - 1], events[i - 1]);
    }
  }

  /** At no point of a run are there tasks with every worker asleep. */
  lemma SomeoneAwake<T>(capacity: nat, numWorkers: nat, states: seq<State<T>>, events: seq<Event<T>>, i: nat)
    requires IsRun(capacity, numWorkers, states, events) && i < |states|
    requires 1 <= numWorkers && states[i].items != []
    ensures |states[i].workers| == numWorkers
    ensures exists w :: 0 <= w < numWorkers && !states[i].workers[w].Waiting? && !states[i].workers[w].Exited?
  {
    RunKeeps(capacity, numWorkers, states, events, i);
    var s := states[i];
    if s.workers[0].Waiting? {
      if Poppers(s.workers) != 0 {
        SomePopper(s.workers);
      }
    }
  }

  lemma {:induction false} SomePopper<T>(workers: seq<Worker<T>>)
    requires Poppers(workers) != 0
    ensures exists w :: 0 <= w < |workers| && workers[w].Popping?
  {
    var n := |workers| - 1;
    if !workers[n].Popping? {
      SomePopper(workers[..n]);
      var w :| 0 <= w < n && workers[..n][w].Popping?;
      assert workers[w].Popping?;
    }
  }

  ghost predicate AllExited<T>(s: State<T>)
  {
    forall i :: 0 <= i < |s.workers| ==> s.workers[i].Exited?
  }

  /** When shutdown has joined every worker, each accepted task has run exactly once, having
      been taken out in the order it was accepted. */
  lemma NothingLost<T>(capacity: nat, numWorkers: nat, states: seq<State<T>>, events: seq<Event<T>>, i: nat)
    requires IsRun(capacity, numWorkers, states, events) && i < |states|
    requires 1 <= numWorkers && AllExited(states[i])
    ensures states[i].items == [] && states[i].dequeued == states[i].accepted
    ensures multiset(states[i].finished) == multiset(states[i].accepted)
  {
    RunKeeps(capacity, numWorkers, states, events, i);
    var s := states[i];
    assert s.workers[0].Exited?;
    NoTasks(s.workers);
    assert s.dequeued + [] == s.dequeued;
  }

  // ---- shutdown ends ----

  function WorkLeft<T>(workers: seq<Worker<T>>): nat
  {
    if workers == [] then 0
    else
      var w := workers[|workers| - 1];
      WorkLeft(workers[..|workers| - 1]) + if w.Running? then 2 else if w.Exited? then 0 else 1
  }

  lemma {:induction false} WorkLeftUpdate<T>(workers: seq<Worker<T>>, i: nat, w: Worker<T>)
    requires i < |workers|
    ensures WorkLeft(workers[i := w]) + (if workers[i].Running? then 2 else if workers[i].Exited? then 0 else 1) ==
            WorkLeft(workers) + if w.Running? then 2 else if w.Exited? then 0 else 1
  {
    var n := |workers| - 1;
    if i < n {
      assert workers[i := w][..n] == workers[..n][i := w];
      WorkLeftUpdate(workers[..n], i, w);
    } else {
      assert workers[i := w][..n] == workers[..n];
    }
  }

  /** After shutdown every step of a worker brings the end nearer, and until all have
      left one of them can take a step: so if tasks end, `shutdown` returns. */
  lemma ShutdownEnds<T>(capacity: nat, s: State<T>, e: Event<T>)
    requires Inv(capacity, s) && s.shuttingDown
    ensures Enabled(s, e) && !e.Shutdown? ==>
      var t := After(capacity, s, e);
      3 * |t.items| + WorkLeft(t.workers) < 3 * |s.items| + WorkLeft(s.workers)
    ensures !AllExited(s) ==> exists w: nat :: Enabled(s, Pop(w)) || Enabled(s, Finish(w))
  {
    if Enabled(s, e) && !e.Shutdown? {
      var t := After(capacity, s, e);
      match e {
        case Pop(w) => WorkLeftUpdate(s.workers, w, t.workers[w]);
        case Finish(w) => WorkLeftUpdate(s.workers, w, t.workers[w]);
        case Wake(w) =>
      }
    }
    if !AllExited(s) {
      var w :| 0 <= w < |s.workers| && !s.workers[w].Exited?;
      assert Enabled(s, Pop(w)) || Enabled(s, Finish(w));
    }
  }

  /** How many steps of workers are among some events: all but further shutdowns. */
  function WorkerSteps<T>(events: seq<Event<T>>, first: nat, last: nat): nat
    requires first <= last <= |events|
    decreases last
  {
    if first == last then 0 else WorkerSteps(events, first, last - 1) + if events[last - 1].Shutdown? then 0 else 1
  }

  function Left<T>(s: State<T>): nat
  {
    3 * |s.items| + WorkLeft(s.workers)
  }

  /** From a shutdown on every state is shutting down, nothing more is accepted, and each
      step of a worker is paid for by what was left to do at the shutdown. */
  lemma {:induction false} AfterShutdown<T>(capacity: nat, numWorkers: nat, states: seq<State<T>>,
                                             events: seq<Event<T>>, a: nat, i: nat)
    requires IsRun(capacity, numWorkers, states, events) && a < i < |states| && events[a].Shutdown?
    ensures states[i].shuttingDown && states[i].accepted == states[a].accepted
    ensures WorkerSteps(events, a + 1, i) + Left(states[i]) <= Left(states[a + 1])
    decreases i
  {
    hide Inv, WorkLeft;
    RunKeeps(capacity, numWorkers, states, events, i - 1);
    var s, e := states[i - 1], events[i - 1];
    if i == a + 1 {
      ShutdownKeeps(capacity, s);
    } else {
      AfterShutdown(capacity, numWorkers, states, events, a, i - 1);
      StepKeeps(capacity, s, e);
      ShutdownEnds(capacity, s, e);
      StaysDown(capacity, s, e);
    }
  }

  lemma StaysDown<T>(capacity: nat, s: State<T>, e: Event<T>)
    requires Inv(capacity, s) && s.shuttingDown && Enabled(s, e)
    ensures After(capacity, s, e).shuttingDown
    ensures e.Shutdown? ==> Left(After(capacity, s, e)) == Left(s)
  {
    hide WorkLeft;
    if e.Shutdown? {
      assert NotifyAll(s.workers) == s.workers;
    }
  }

  lemma {:induction false} NoWorkLeft<T>(workers: seq<Worker<T>>)
    requires WorkLeft(workers) == 0
    ensures forall w :: 0 <= w < |workers| ==> workers[w].Exited?
  {
    if workers != [] {
      NoWorkLeft(workers[..|workers| - 1]);
    }
  }

  /** Shutdown returns: after it the workers take at most three steps for each task queued
      and two for each worker; by then all have left, and every task accepted has run
      exactly once, taken out in the order accepted. */
  lemma ShutdownReturns<T>(capacity: nat, numWorkers: nat, states: seq<State<T>>, events: seq<Event<T>>, a: nat, i: nat)
    requires IsRun(capacity, numWorkers, states, events) && a < i < |states| && events[a].Shutdown?
    requires 1 <= numWorkers
    ensures WorkerSteps(events, a + 1, i) <= 3 * |states[a].items| + WorkLeft(states[a + 1].workers)
    ensures WorkLeft(states[a + 1].workers) <= 2 * numWorkers
    ensures WorkerSteps(events, a + 1, i) == 3 * |states[a].items| + WorkLeft(states[a + 1].workers) ==>
      && AllExited(states[i])
      && states[i].dequeued == states[a].accepted
      && multiset(states[i].finished) == multiset(states[a].accepted)
    ensures !AllExited(states[i]) ==> exists w: nat :: Enabled(states[i], Pop(w)) || Enabled(states[i], Finish(w))
  {
    hide Inv, WorkLeft;
    AfterShutdown(capacity, numWorkers, states, events, a, i);
    RunKeeps(capacity, numWorkers, states, events, a);
    RunKeeps(capacity, numWorkers, states, events, a + 1);
    RunKeeps(capacity, numWorkers, states, events, i);
    ShutdownKeeps(capacity, states[a]);
    WorkAtMost(states[a + 1].workers);
    ShutdownEnds(capacity, states[i], Shutdown);
    if Left(states[i]) == 0 {
      NoWorkLeft(states[i].workers);
      NothingLost(capacity, numWorkers, states, events, i);
    }
  }

  lemma {:induction false} WorkAtMost<T>(workers: seq<Worker<T>>)
    ensures WorkLeft(workers) <= 2 * |workers|
  {
    if workers != [] {
      WorkAtMost(workers[..|workers| - 1]);
    }
  }
}
