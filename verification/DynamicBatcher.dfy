/** Gathering requests into batches: a batch goes when it is full or its first request has
    waited long enough. Time comes in from outside, in milliseconds. */
module DynamicBatcher {
  import opened Common

  datatype Limits = Limits(maxBatchSize: nat, maxWait: real)

  /** How many of the waiting requests the next batch takes. */
  function BatchLength(limits: Limits, waiting: nat): (n: nat)
    ensures n <= waiting && n <= limits.maxBatchSize
    ensures n == waiting || n == limits.maxBatchSize
  {
    if waiting <= limits.maxBatchSize then waiting else limits.maxBatchSize
  }

  /** Whether a batch is due. */
  predicate Due(limits: Limits, waiting: nat, windowStart: Option<real>, now: real)
  {
    0 < waiting && (limits.maxBatchSize <= waiting || (windowStart.Some? && limits.maxWait <= now - windowStart.value))
  }

  class Batcher<T> {
    const limits: Limits
    var items: seq<T>
    var windowStart: Option<real>

    /** The window is open exactly while something waits. */
    ghost predicate Valid()
      reads this
    {
      items == [] <==> windowStart.None?
    }

    constructor (limits: Limits)
      ensures Valid() && items == [] && this.limits == limits
    {
      this.limits := limits;
      items, windowStart := [], None;
    }

    method Add(item: T, now: real)
      requires Valid()
      modifies this
      ensures Valid() && items == old(items) + [item]
      ensures windowStart == if old(items) == [] then Some(now) else old(windowStart)
    {
      if items == [] {
        windowStart := Some(now);
      }
      items := items + [item];
    }

    method ShouldFlush(now: real) returns (due: bool)
      requires Valid()
      ensures due == Due(limits, |items|, windowStart, now)
      ensures due <==> items != [] && (limits.maxBatchSize <= |items| || limits.maxWait <= now - windowStart.value)
    {
      if items == [] {
        return false;
      }
      if |items| >= limits.maxBatchSize {
        return true;
      }
      var elapsed := now - windowStart.value;
      return elapsed >= limits.maxWait;
    }

    /** Takes from the front, at most a full batch; what is left starts a new window. */
    method Flush(now: real) returns (batch: seq<T>)
      requires Valid()
      modifies this
      ensures Valid() && old(items) == batch + items
      ensures |batch| == BatchLength(limits, |old(items)|)
      ensures |batch| <= limits.maxBatchSize && (items != [] ==> |batch| == limits.maxBatchSize)
      ensures windowStart == if items == [] then None else Some(now)
    {
      var n := BatchLength(limits, |items|);
      batch := items[..n];
      items := items[n..];
      windowStart := if items != [] then Some(now) else None;
    }
  }
}
