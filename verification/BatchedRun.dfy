/** The batched run's shared objects: each method is one section under the lock, or one
    step of the flusher thread, and one step of the state machine. */
module BatchedRun {
  import opened Common
  import opened DynamicBatcher
  import opened BatchingState
  import opened BatchingLaws

  class Run {
    const maxQueueDepth: Option<nat>
    const batcher: Batcher<nat>
    var flusher: Flusher
    var failed: bool
    var stop: bool
    var nextIndex: nat
    var shed: nat
    ghost var woken: seq<nat>
    ghost var batches: seq<seq<nat>>
    ghost var scored: seq<nat>

    ghost function Abstract(): State
      reads this, batcher
    {
      State(batcher.items, batcher.windowStart, flusher, failed, stop, nextIndex, shed, woken, batches, scored)
    }

    function Config(): Settings
    {
      Settings(batcher.limits, maxQueueDepth)
    }

    ghost predicate Valid()
      reads this, batcher
    {
      Inv(Config(), Abstract())
    }

    constructor (limits: Limits, maxQueueDepth: Option<nat>)
      ensures Valid() && Abstract() == START && Config() == Settings(limits, maxQueueDepth) && fresh(batcher)
    {
      this.maxQueueDepth := maxQueueDepth;
      batcher := new Batcher(limits);
      flusher, failed, stop, nextIndex, shed := Polling, false, false, 0, 0;
      woken, batches, scored := [], [], [];
      new;
      StartKeeps(Config());
    }

    /** A dispatching thread, under the lock. */
    method Enqueue(now: real) returns (accepted: bool)
      requires Valid() && Enabled(Abstract(), Event.Enqueue(now))
      modifies this`nextIndex, this`shed, batcher
      ensures Valid() && Abstract() == After(Config(), old(Abstract()), Event.Enqueue(now))
      ensures accepted == !Full(Config(), old(Abstract()))
      ensures accepted ==>
        batcher.items == old(batcher.items) + [old(nextIndex)] && nextIndex == old(nextIndex) + 1 && shed == old(shed)
      ensures !accepted ==> batcher.items == old(batcher.items) && nextIndex == old(nextIndex) && shed == old(shed) + 1
    {
      hide BatchesInOrder, NoneStranded, WokenScored;
      StepKeeps(Config(), Abstract(), Event.Enqueue(now));
      if maxQueueDepth.Some? && |batcher.items| >= maxQueueDepth.value {
        shed := shed + 1;
        return false;
      }
      var request := nextIndex;
      nextIndex := nextIndex + 1;
      batcher.Add(request, now);
      return true;
    }

    method Poll(now: real)
      requires Valid()
      modifies this`flusher, this`batches, batcher
      ensures Valid() && Abstract() == After(Config(), old(Abstract()), Event.Poll(now))
      ensures 1 <= batcher.limits.maxBatchSize && old(flusher).Polling? && !stop ==>
        if BatchReady(Config(), old(Abstract()), now) then
          flusher.Scoring? && flusher.batch != [] && Taken(Config(), old(Abstract()), Abstract(), flusher.batch, now)
        else flusher == old(flusher) && batcher.items == old(batcher.items)
    {
      if 1 <= batcher.limits.maxBatchSize && flusher.Polling? {
        PollDoes(Config(), Abstract(), now);
      }
      hide BatchesInOrder, NoneStranded, WokenScored;
      StepKeeps(Config(), Abstract(), Event.Poll(now));
      if !flusher.Polling? {
        return;
      }
      if stop {
        flusher := Gone;
        return;
      }
      var due := batcher.ShouldFlush(now);
      if due {
        var batch := batcher.Flush(now);
        if batch != [] {
          batches := batches + [batch];
          flusher := Scoring(batch);
        }
      }
    }

    /** What the scorer did with the batch it was given. */
    method Score(ok: bool)
      requires Valid()
      modifies this`flusher, this`failed, this`scored
      ensures Valid() && Abstract() == After(Config(), old(Abstract()), Event.Score(ok))
      ensures old(flusher).Scoring? ==>
        && flusher == Waking(old(flusher).batch, !ok) && failed == (old(failed) || !ok)
        && scored == if ok then old(scored) + old(flusher).batch else old(scored)
    {
      hide BatchesInOrder, NoneStranded, WokenScored;
      StepKeeps(Config(), Abstract(), Event.Score(ok));
      if flusher.Scoring? {
        if ok {
          scored := scored + flusher.batch;
        } else {
          failed := true;
        }
        flusher := Waking(flusher.batch, !ok);
      }
    }

    method WakeOne()
      requires Valid()
      modifies this`flusher, this`woken
      ensures Valid() && Abstract() == After(Config(), old(Abstract()), Event.WakeOne)
      ensures old(flusher).Waking? && old(flusher).left != [] ==> woken == old(woken) + [old(flusher).left[0]]
      ensures old(flusher).Waking? && old(flusher).left == [] ==>
        woken == old(woken) && if old(flusher).failed then flusher.Draining? else flusher.Polling?
    {
      hide BatchesInOrder, NoneStranded, WokenScored;
      StepKeeps(Config(), Abstract(), Event.WakeOne);
      if flusher.Waking? {
        if flusher.left == [] {
          flusher := if flusher.failed then Draining else Polling;
        } else {
          woken := woken + [flusher.left[0]];
          flusher := Waking(flusher.left[1..], flusher.failed);
        }
      }
    }

    /** After a failure: whatever has arrived is taken and woken, unscored. */
    method Drain(now: real)
      requires Valid()
      modifies this`flusher, this`batches, batcher
      ensures Valid() && Abstract() == After(Config(), old(Abstract()), Event.Drain(now))
      ensures old(flusher).Draining? && !stop ==>
        && flusher.Waking? && flusher.failed
        && Taken(Config(), old(Abstract()), Abstract(), flusher.left, now)
    {
      if flusher.Draining? {
        DrainDoes(Config(), Abstract(), now);
      }
      hide BatchesInOrder, NoneStranded, WokenScored;
      StepKeeps(Config(), Abstract(), Event.Drain(now));
      if !flusher.Draining? {
        return;
      }
      if stop {
        flusher := Gone;
        return;
      }
      var orphans := batcher.Flush(now);
      if orphans != [] {
        batches := batches + [orphans];
      }
      flusher := Waking(orphans, true);
    }

    method Stop()
      requires Valid() && MayStop(Abstract())
      modifies this`stop
      ensures Valid() && Abstract() == After(Config(), old(Abstract()), Event.Stop)
      ensures stop
    {
      hide BatchesInOrder, NoneStranded, WokenScored;
      StepKeeps(Config(), Abstract(), Event.Stop);
      stop := true;
    }
  }
}
