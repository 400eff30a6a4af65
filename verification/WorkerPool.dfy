/** The queue and the pool as objects: each method is one critical section, and one step of
    the state machine. */
module WorkerPool {
  import opened PoolState

  /** What `pop` finds when it looks: nothing yet, shutdown, or an item. */
  datatype Popped<T> = NotYet | Closed | Item(item: T)

  class BoundedQueue<T> {
    const capacity: nat
    var items: seq<T>
    var shuttingDown: bool

    constructor (capacity: nat)
      ensures items == [] && !shuttingDown && this.capacity == capacity
    {
      this.capacity := capacity;
      items, shuttingDown := [], false;
    }

    /** Never blocks: a full queue refuses, unchanged. */
    method TryPush(item: T) returns (ok: bool)
      modifies this`items
      ensures ok == (|old(items)| < capacity)
      ensures items == if ok then old(items) + [item] else old(items)
    {
      if |items| >= capacity {
        return false;
      }
      items := items + [item];
      return true;
    }

    method Pop() returns (popped: Popped<T>)
      modifies this`items
      ensures popped.NotYet? <==> old(items) == [] && !shuttingDown
      ensures popped.Closed? <==> old(items) == [] && shuttingDown
      ensures old(items) == if popped.Item? then [popped.item] + items else items
    {
      if !(items != [] || shuttingDown) {
        return NotYet;
      }
      if items == [] {
        return Closed;
      }
      popped := Item(items[0]);
      items := items[1..];
    }

    method Shutdown()
      modifies this`shuttingDown
      ensures shuttingDown
    {
      shuttingDown := true;
    }
  }

  class WorkerPool<T> {
    const queue: BoundedQueue<T>
    var workers: seq<Worker<T>>
    ghost var accepted: seq<T>
    ghost var dequeued: seq<T>
    ghost var finished: seq<T>

    ghost function Abstract(): State<T>
      reads this, queue
    {
      State(queue.items, queue.shuttingDown, workers, accepted, dequeued, finished)
    }

    ghost predicate Valid()
      reads this, queue
    {
      Inv(queue.capacity, Abstract())
    }

    constructor (numWorkers: nat, queueDepth: nat)
      ensures Valid() && Abstract() == Start(numWorkers) && queue.capacity == queueDepth && fresh(queue)
    {
      queue := new BoundedQueue(queueDepth);
      workers := seq(numWorkers, i => Popping);
      accepted, dequeued, finished := [], [], [];
      new;
      StartKeeps<T>(queueDepth, numWorkers);
      assert workers == Start<T>(numWorkers).workers;
    }

    /** The load-shedding boundary. */
    method TrySubmit(task: T, woken: nat) returns (ok: bool)
      requires Valid() && Enabled(Abstract(), Event.Submit(task, woken))
      modifies this, queue
      ensures Valid() && Abstract() == After(queue.capacity, old(Abstract()), Event.Submit(task, woken))
      ensures ok == (|old(queue.items)| < queue.capacity)
      ensures queue.items == (if ok then old(queue.items) + [task] else old(queue.items))
      ensures accepted == (if ok then old(accepted) + [task] else old(accepted))
      ensures ok && !NoneAsleep(old(workers)) ==>
        woken < |workers| == |old(workers)| && old(workers)[woken].Waiting? && workers[woken].Popping?
    {
      hide Inv;
      SubmitDoes(queue.capacity, Abstract(), task, woken);
      StepKeeps(queue.capacity, Abstract(), Event.Submit(task, woken));
      ok := queue.TryPush(task);
      if ok {
        accepted := accepted + [task];
        workers := NotifyOne(workers, woken);
      }
    }

    /** A worker at the queue takes a task, goes to sleep, or leaves. */
    method WorkerPop(w: nat)
      requires Valid() && Enabled(Abstract(), Event.Pop(w))
      modifies this, queue
      ensures Valid() && Abstract() == After(queue.capacity, old(Abstract()), Event.Pop(w))
      ensures |workers| == |old(workers)| && w < |workers|
      ensures if old(queue.items) != [] then
          queue.items == old(queue.items)[1..] && workers[w] == Running(old(queue.items)[0])
        else queue.items == [] && workers[w] == if queue.shuttingDown then Exited else Waiting
    {
      hide Inv;
      StepKeeps(queue.capacity, Abstract(), Event.Pop(w));
      var popped := queue.Pop();
      match popped {
        case NotYet =>
          workers := workers[w := Waiting];
        case Closed =>
          workers := workers[w := Exited];
        case Item(task) =>
          dequeued := dequeued + [task];
          workers := workers[w := Running(task)];
      }
    }

    method WorkerFinish(w: nat)
      requires Valid() && Enabled(Abstract(), Event.Finish(w))
      modifies this
      ensures Valid() && Abstract() == After(queue.capacity, old(Abstract()), Event.Finish(w))
      ensures w < |workers| == |old(workers)| && workers[w].Popping?
      ensures finished == old(finished) + [old(workers)[w].task]
    {
      hide Inv;
      StepKeeps(queue.capacity, Abstract(), Event.Finish(w));
      finished := finished + [workers[w].task];
      workers := workers[w := Popping];
    }

    method SpuriousWake(w: nat)
      requires Valid() && Enabled(Abstract(), Event.Wake(w))
      modifies this`workers
      ensures Valid() && Abstract() == After(queue.capacity, old(Abstract()), Event.Wake(w))
      ensures w < |workers| && workers[w].Popping?
    {
      hide Inv;
      StepKeeps(queue.capacity, Abstract(), Event.Wake(w));
      workers := workers[w := Popping];
    }

    /** Queued tasks stay queued, running ones go on, and nobody sleeps on. */
    method Shutdown()
      requires Valid()
      modifies this`workers, queue
      ensures Valid() && Abstract() == After(queue.capacity, old(Abstract()), Event.Shutdown)
      ensures queue.shuttingDown && NoneAsleep(workers)
      ensures queue.items == old(queue.items) && |workers| == |old(workers)|
      ensures forall w :: 0 <= w < |workers| && !old(workers)[w].Waiting? ==> workers[w] == old(workers)[w]
    {
      hide Inv;
      StepKeeps(queue.capacity, Abstract(), Event.Shutdown);
      queue.Shutdown();
      workers := NotifyAll(workers);
    }
  }
}
