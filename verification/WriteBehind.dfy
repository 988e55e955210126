/** The write-behind queue (src/internal/CacheStackMaintenance.ts:174-219) and the batches that empty it
    (src/CacheStack.ts:1574-1596).  An operation of a batch settles, with or without an error, before the next
    one runs, and a batch never rejects. */
module WriteBehind {
  import opened OrderedMap

  datatype Operation = Operation(id: nat)

  class Queue {
    const batchSize: nat
    const maxQueueSize: nat
    var queue: seq<Operation>
    /** What is left of the batch being flushed, if one is. */
    var batch: Option<seq<Operation>>
    /** The operations that have run, and those accepted and not dropped by a clear, both in order. */
    ghost var ran: seq<Operation>
    ghost var kept: seq<Operation>
    ghost var dropped: multiset<Operation>

    ghost function Batch(): seq<Operation>
      reads this`batch
    {
      if batch.Some? then batch.value else []
    }

    /** Every kept operation has run, is in the batch or is queued, in this order; and when no flush is under way
        there is room in the queue and too little in it for a flush. */
    ghost predicate Valid()
      reads this
    {
      && batchSize > 0 && maxQueueSize > 0
      && kept == ran + Batch() + queue
      && |queue| <= maxQueueSize && |Batch()| <= batchSize
      && (batch.None? ==> |queue| < batchSize && |queue| < maxQueueSize)
    }

    constructor (batchSize: nat, maxQueueSize: Option<nat>)
      requires batchSize > 0 && (maxQueueSize.Some? ==> maxQueueSize.value > 0)
      ensures Valid() && kept == [] && ran == [] && dropped == multiset{}
      ensures this.batchSize == batchSize
      ensures this.maxQueueSize == if maxQueueSize.Some? then maxQueueSize.value else 10 * batchSize
    {
      this.batchSize := batchSize;
      this.maxQueueSize := if maxQueueSize.Some? then maxQueueSize.value else 10 * batchSize;
      queue, batch := [], None;
      ran, kept, dropped := [], [], multiset{};
    }

    function Lesser(a: nat, b: nat): nat { if a < b then a else b }

    /** Refused exactly when the queue is full, which it only is while a flush is under way.  An accepted operation
        starts a flush exactly if none is under way and the queue has reached the batch size or its limit. */
    method Enqueue(op: Operation) returns (accepted: bool)
      requires Valid()
      modifies this`queue, this`batch, this`kept
      ensures Valid() && accepted == (|old(queue)| < maxQueueSize)
      ensures !accepted ==> batch.Some? && batch == old(batch) && queue == old(queue)
      ensures kept == if accepted then old(kept) + [op] else old(kept)
      ensures accepted ==>
                if old(batch).Some? || |old(queue)| + 1 < Lesser(batchSize, maxQueueSize)
                then batch == old(batch) && queue == old(queue) + [op]
                else batch.Some? && old(queue) + [op] == batch.value + queue
                     && |batch.value| == Lesser(batchSize, |old(queue)| + 1)
    {
      if |queue| >= maxQueueSize {
        return false;
      }
      queue := queue + [op];
      kept := kept + [op];
      if |queue| >= maxQueueSize {
        Flush();
        return true;
      }
      if |queue| >= batchSize {
        Flush();
      }
      return true;
    }

    /** Takes the front of the queue as the next batch, unless a flush is under way. */
    method Flush()
      requires batchSize > 0 && maxQueueSize > 0 && kept == ran + Batch() + queue
      requires |queue| <= maxQueueSize && |Batch()| <= batchSize
      modifies this`queue, this`batch
      ensures kept == ran + Batch() + queue && |Batch()| <= batchSize
      ensures if old(batch).Some? || old(queue) == [] then batch == old(batch) && queue == old(queue)
              else batch.Some? && batch.value != [] && old(queue) == batch.value + queue
                   && |batch.value| == Lesser(batchSize, |old(queue)|)
    {
      if batch.Some? || queue == [] {
        return;
      }
      var size := if |queue| < batchSize then |queue| else batchSize;
      assert queue == queue[..size] + queue[size..];
      batch := Some(queue[..size]);
      queue := queue[size..];
    }

    /** The next operation of the batch settles. */
    method Settle()
      requires Valid() && batch.Some? && batch.value != []
      modifies this`batch, this`ran
      ensures Valid() && batch == Some(old(batch).value[1..]) && ran == old(ran) + [old(batch).value[0]]
    {
      assert batch.value == [batch.value[0]] + batch.value[1..];
      ran := ran + [batch.value[0]];
      batch := Some(batch.value[1..]);
    }

    /** All operations of the batch have settled: the flush goes on with what is queued by now. */
    method EndBatch()
      requires Valid() && batch == Some([])
      modifies this`queue, this`batch
      ensures Valid() && old(queue) == Batch() + queue && (batch.None? <==> old(queue) == [])
      ensures batch.Some? ==> batch.value != []
    {
      batch := None;
      assert kept == ran + Batch() + queue;
      if |queue| > 0 {
        Flush();
      }
    }

    /** `beginClearEpoch` drops what is queued; a batch under way goes on. */
    method Clear()
      requires Valid()
      modifies this`queue, this`kept, this`dropped
      ensures Valid() && queue == [] && ran + Batch() == kept
      ensures dropped == old(dropped) + multiset(old(queue))
      ensures multiset(kept) + dropped == multiset(old(kept)) + old(dropped)
    {
      assert multiset(kept) == multiset(ran + Batch()) + multiset(queue);
      kept := ran + Batch();
      dropped := dropped + multiset(queue);
      queue := [];
    }

    /** Flushing until nothing is queued runs every kept operation exactly once, in the order of acceptance. */
    method FlushAll()
      requires Valid()
      modifies this`queue, this`batch, this`ran
      ensures Valid() && queue == [] && batch == None && ran == kept
    {
      Flush();
      while batch.Some?
        invariant Valid() && (batch.None? ==> queue == [])
        decreases 2 * |queue| + |Batch()|, if batch.Some? then 1 else 0
      {
        if batch.value != [] {
          Settle();
        } else {
          EndBatch();
        }
      }
    }
  }
}
