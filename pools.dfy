/**
 * The task pool of the web server, web/internal/taskq/pool.go.
 *
 * A pool owns a bounded FIFO queue of tasks and a fixed number of workers.
 * Worker goroutines are abstracted to a count of idle workers, and the
 * dispatch loop of `Run` to one step at a time. The ghost `submitted` log
 * holds every accepted task in order; `Valid` ties it to the tasks handed to
 * workers, the task the loop holds and the queue, which is the FIFO,
 * exactly-once promise of the dispatch loop.
 */
module TaskQueue {
  import opened Wrappers

  /** HTTP status codes returned by `Submit`. */
  const StatusAccepted := 202
  const StatusRequestTimeout := 408
  const StatusTooManyRequests := 429

  /** snowflake node numbers have 10 bits. */
  const SNOWFLAKE_NODE_MAX := 1023

  /** `autoIncID`: the global pool counter; `ID` advances it and returns the new value. */
  class AutoIncId {
    var id: int

    constructor (start: int)
      ensures id == start
    {
      id := start;
    }

    method ID() returns (r: int)
      modifies this
      ensures id == old(id) + 1 && r == id
    {
      id := id + 1;
      r := id;
    }
  }

  /** Where the dispatch loop of `Run` stands. */
  datatype Phase = Created | Running | Stopped

  class WorkerPool<T> {
    const ID: int
    /** cap(taskq) */
    const capacity: nat
    /** cap(workers) */
    const workerCap: nat
    /** ids of the workers `Run` started */
    var workers: seq<int>
    var taskq: seq<T>
    /** workers waiting on `workerq` for a task */
    var idle: nat
    /** the task `Run` took from the queue while it waits for a worker */
    var inHand: Option<T>
    /** tasks handed to workers, in the order they were handed */
    var handed: seq<T>
    var phase: Phase
    /** the last task id the snowflake node generated: task ids increase */
    var lastTaskID: int
    ghost var submitted: seq<T>

    function InHand(): seq<T>
      reads this
    {
      if inHand.Some? then [inHand.value] else []
    }

    ghost predicate Valid()
      reads this
    {
      && |taskq| <= capacity
      && idle <= |workers| <= workerCap
      && (phase == Created ==> |workers| == 0 && inHand.None? && handed == [])
      && handed + InHand() + taskq == submitted
    }

    constructor (id: int, workernum: nat, qbuffer: nat)
      ensures Valid() && ID == id && capacity == qbuffer && workerCap == workernum
      ensures workers == [] && taskq == [] && idle == 0 && phase == Created && submitted == []
    {
      ID := id;
      capacity := qbuffer;
      workerCap := workernum;
      workers := [];
      taskq := [];
      idle := 0;
      inHand := None;
      handed := [];
      phase := Created;
      lastTaskID := -1;
      submitted := [];
    }

    /**
     * `Run`'s start: without a name in the context it returns at once,
     * otherwise it starts `cap(workers)` workers, each of which waits idle.
     */
    method Start(named: bool)
      requires Valid() && phase == Created
      modifies this
      ensures Valid() && submitted == old(submitted) && taskq == old(taskq)
      ensures !named ==> phase == Stopped && workers == []
      ensures named ==> phase == Running && |workers| == workerCap && idle == workerCap
      ensures named ==> forall i :: 0 <= i < workerCap ==> workers[i] == i
    {
      if !named {
        phase := Stopped;
        return;
      }
      var i := 0;
      while i < workerCap
        invariant 0 <= i <= workerCap
        invariant |workers| == i && idle == i
        invariant forall k :: 0 <= k < i ==> workers[k] == k
        invariant taskq == old(taskq) && submitted == old(submitted)
        invariant inHand.None? && handed == [] && |taskq| <= capacity
      {
        workers := workers + [i];
        idle := idle + 1;
        i := i + 1;
      }
      phase := Running;
    }

    /**
     * `Submit`: never blocks. With the context cancelled and room in the
     * queue both cases of the select are ready and `preferCancel` says which
     * one Go picks.
     */
    method Submit(ctxDone: bool, preferCancel: bool, t: T) returns (status: int, taskID: int)
      requires Valid()
      modifies this`taskq, this`lastTaskID, this`submitted
      ensures Valid()
      ensures status == StatusAccepted || status == StatusTooManyRequests || status == StatusRequestTimeout
      ensures status == StatusAccepted <==> (|old(taskq)| < capacity && (!ctxDone || !preferCancel))
      ensures status == StatusTooManyRequests <==> (|old(taskq)| == capacity && !ctxDone)
      ensures status == StatusAccepted ==>
        taskq == old(taskq) + [t] && submitted == old(submitted) + [t] && taskID == lastTaskID > old(lastTaskID)
      ensures status != StatusAccepted ==>
        taskq == old(taskq) && submitted == old(submitted) && lastTaskID == old(lastTaskID) && taskID == -1
    {
      var room := |taskq| < capacity;
      if ctxDone && (!room || preferCancel) {
        return StatusRequestTimeout, -1;
      }
      if room {
        taskq := taskq + [t];
        submitted := submitted + [t];
        lastTaskID := lastTaskID + 1;
        return StatusAccepted, lastTaskID;
      }
      return StatusTooManyRequests, -1;
    }

    /**
     * One turn of `Run`'s loop. A task in hand waits for an idle worker
     * (the receive on `workerq` does not watch the context); otherwise the
     * select takes the cancellation or the oldest queued task, `preferCancel`
     * choosing when both are ready.
     */
    method Step(ctxDone: bool, preferCancel: bool)
      requires Valid()
      modifies this`taskq, this`inHand, this`handed, this`idle, this`phase
      ensures Valid() && submitted == old(submitted) && |handed| >= |old(handed)|
      ensures old(phase) != Running ==> phase == old(phase) && taskq == old(taskq) && handed == old(handed)
      ensures old(phase) == Running && old(inHand).Some? && old(idle) > 0 ==>
        handed == old(handed) + [old(inHand).value] && idle == old(idle) - 1 && inHand.None? && taskq == old(taskq)
      ensures old(phase) == Running && old(inHand).None? && old(taskq) != [] && !(ctxDone && preferCancel) ==>
        inHand == Some(old(taskq)[0]) && taskq == old(taskq)[1..] && handed == old(handed)
      ensures phase == Stopped <==> old(phase) == Stopped || (old(phase) == Running && old(inHand).None? && ctxDone && (old(taskq) == [] || preferCancel))
    {
      if phase != Running {
        return;
      }
      if inHand.Some? {
        if idle > 0 {
          handed := handed + [inHand.value];
          idle := idle - 1;
          inHand := None;
        }
        return;
      }
      if ctxDone && (taskq == [] || preferCancel) {
        phase := Stopped;
        return;
      }
      if taskq != [] {
        inHand := Some(taskq[0]);
        taskq := taskq[1..];
      }
    }

    /** A busy worker finishes its task and waits on `workerq` again. */
    method WorkerDone()
      requires Valid() && idle < |workers|
      modifies this`idle
      ensures Valid() && idle == old(idle) + 1
    {
      idle := idle + 1;
    }
  }

  /**
   * `NewWorkerPool`: the argument checks come before the pool counter
   * advances; the snowflake node then refuses ids outside 0..1023, after the
   * counter has advanced.
   */
  method NewWorkerPool<T>(poolID: AutoIncId, workernum: int, qbuffer: int) returns (r: Result<WorkerPool<T>, string>)
    modifies poolID
    ensures workernum <= 0 ==> r == Failure("number of workers should be non-zero +ve number") && poolID.id == old(poolID.id)
    ensures workernum > 0 && qbuffer <= 0 ==> r == Failure("number of buffers should be non-zero +ve number") && poolID.id == old(poolID.id)
    ensures workernum > 0 && qbuffer > 0 ==> poolID.id == old(poolID.id) + 1
    ensures workernum > 0 && qbuffer > 0 ==> (r.Success? <==> 0 <= poolID.id <= SNOWFLAKE_NODE_MAX)
    ensures r.Success? ==>
      && fresh(r.value) && r.value.Valid() && r.value.ID == poolID.id
      && r.value.capacity == qbuffer && r.value.workerCap == workernum
      && r.value.phase == Created && r.value.taskq == [] && r.value.submitted == []
  {
    if workernum <= 0 {
      return Failure("number of workers should be non-zero +ve number");
    }
    if qbuffer <= 0 {
      return Failure("number of buffers should be non-zero +ve number");
    }
    var id := poolID.ID();
    if id < 0 || id > SNOWFLAKE_NODE_MAX {
      return Failure("failed to create snowflake node");
    }
    var wp := new WorkerPool<T>(id, workernum, qbuffer);
    return Success(wp);
  }
}

/**
 * The message-queue pool of the earlier server, core/mq/pool.go: the same
 * queue-and-workers design with clamped sizes and with acceptance reported
 * through the task's `Accepted`/`Rejected` callbacks, which are recorded in
 * the `signals` log.
 */
module MessageQueue {
  import opened Wrappers

  const MAX_CONCURRENT_WORKER_PER_POOL := 2
  const MAX_TASK_QUEUE_SIZE := 16

  /** The worker count and queue capacity of a new pool. */
  datatype Sizes = Sizes(workers: nat, queue: nat)

  /** The callback `Submit` invokes on a task. */
  datatype Signal<T> = Accepted(task: T) | Rejected(task: T)

  /**
   * `NewWorkerPool`'s arithmetic: the worker count `min(workernum, 2)` and
   * the queue capacity `min(qbuffer - 1, 16)`, after the argument checks.
   */
  function PoolSizes(workernum: nat, qbuffer: int): (r: Result<Sizes, string>)
    ensures r.Failure? <==> workernum == 0 || qbuffer <= 0
    ensures r.Success? ==>
      && r.value.workers <= workernum && r.value.workers <= MAX_CONCURRENT_WORKER_PER_POOL
      && (r.value.workers == workernum || r.value.workers == MAX_CONCURRENT_WORKER_PER_POOL)
    ensures r.Success? ==>
      && r.value.queue <= qbuffer - 1 && r.value.queue <= MAX_TASK_QUEUE_SIZE
      && (r.value.queue == qbuffer - 1 || r.value.queue == MAX_TASK_QUEUE_SIZE)
  {
    if workernum == 0 then Failure("number of workers should be non-zero +ve number")
    else if qbuffer <= 0 then Failure("number of buffers should be non-zero +ve number")
    else
      var w := if workernum < MAX_CONCURRENT_WORKER_PER_POOL then workernum else MAX_CONCURRENT_WORKER_PER_POOL;
      var q := if qbuffer - 1 < MAX_TASK_QUEUE_SIZE then qbuffer - 1 else MAX_TASK_QUEUE_SIZE;
      Success(Sizes(w, q))
  }

  /** A one-slot request gives an unbuffered queue, and sizes never exceed the caps. */
  lemma PoolSizesBounds(workernum: nat, qbuffer: int)
    requires workernum > 0 && qbuffer > 0
    ensures PoolSizes(workernum, qbuffer).Success?
    ensures qbuffer == 1 ==> PoolSizes(workernum, qbuffer).value.queue == 0
    ensures workernum >= MAX_CONCURRENT_WORKER_PER_POOL ==> PoolSizes(workernum, qbuffer).value.workers == MAX_CONCURRENT_WORKER_PER_POOL
    ensures qbuffer > MAX_TASK_QUEUE_SIZE ==> PoolSizes(workernum, qbuffer).value.queue == MAX_TASK_QUEUE_SIZE
  {
  }

  datatype Phase = Created | Running | Stopped

  class WorkerPool<T> {
    /** cap(taskq) */
    const capacity: nat
    /** cap(workers) */
    const workerCap: nat
    var workers: seq<int>
    var taskq: seq<T>
    var idle: nat
    var inHand: Option<T>
    var handed: seq<T>
    var phase: Phase
    /** the callbacks `Submit` made, in order */
    var signals: seq<Signal<T>>
    ghost var submitted: seq<T>

    function InHand(): seq<T>
      reads this
    {
      if inHand.Some? then [inHand.value] else []
    }

    ghost predicate Valid()
      reads this
    {
      && |taskq| <= capacity
      && idle <= |workers| <= workerCap
      && (phase == Created ==> |workers| == 0 && inHand.None? && handed == [])
      && handed + InHand() + taskq == submitted
    }

    constructor (workernum: nat, qbuffer: nat)
      ensures Valid() && capacity == qbuffer && workerCap == workernum
      ensures workers == [] && taskq == [] && idle == 0 && phase == Created
      ensures signals == [] && submitted == []
    {
      capacity := qbuffer;
      workerCap := workernum;
      workers := [];
      taskq := [];
      idle := 0;
      inHand := None;
      handed := [];
      phase := Created;
      signals := [];
      submitted := [];
    }

    /** `Run`'s start, as in the web pool. */
    method Start(named: bool)
      requires Valid() && phase == Created
      modifies this
      ensures Valid() && submitted == old(submitted) && taskq == old(taskq) && signals == old(signals)
      ensures !named ==> phase == Stopped && workers == []
      ensures named ==> phase == Running && |workers| == workerCap && idle == workerCap
      ensures named ==> forall i :: 0 <= i < workerCap ==> workers[i] == i
    {
      if !named {
        phase := Stopped;
        return;
      }
      var i := 0;
      while i < workerCap
        invariant 0 <= i <= workerCap
        invariant |workers| == i && idle == i
        invariant forall k :: 0 <= k < i ==> workers[k] == k
        invariant taskq == old(taskq) && submitted == old(submitted) && signals == old(signals)
        invariant inHand.None? && handed == [] && |taskq| <= capacity
      {
        workers := workers + [i];
        idle := idle + 1;
        i := i + 1;
      }
      phase := Running;
    }

    /**
     * `Run` is parked in its `select` on `taskq` with no task in hand, so
     * a send on an unbuffered queue is taken at once.
     */
    predicate Receiving()
      reads this
    {
      capacity == 0 && phase == Running && inHand.None?
    }

    /**
     * `Submit`: a cancelled context makes no callback; otherwise exactly
     * one of `Accepted` (task sent) and `Rejected` (queue full) is called.
     * A send succeeds when the buffer has room, or when the queue is
     * unbuffered and `Run` is waiting on it, which then holds the task.
     */
    method Submit(ctxDone: bool, preferCancel: bool, t: T)
      requires Valid()
      modifies this`taskq, this`inHand, this`signals, this`submitted
      ensures Valid()
      ensures |old(taskq)| < capacity && (!ctxDone || !preferCancel) ==>
        && taskq == old(taskq) + [t] && inHand == old(inHand)
        && submitted == old(submitted) + [t] && signals == old(signals) + [Accepted(t)]
      ensures old(Receiving()) && (!ctxDone || !preferCancel) ==>
        && taskq == old(taskq) && inHand == Some(t)
        && submitted == old(submitted) + [t] && signals == old(signals) + [Accepted(t)]
      ensures |old(taskq)| == capacity && !old(Receiving()) && !ctxDone ==>
        && taskq == old(taskq) && inHand == old(inHand)
        && submitted == old(submitted) && signals == old(signals) + [Rejected(t)]
      ensures ctxDone && ((|old(taskq)| == capacity && !old(Receiving())) || preferCancel) ==>
        taskq == old(taskq) && inHand == old(inHand) && submitted == old(submitted) && signals == old(signals)
    {
      var room := |taskq| < capacity;
      var receiving := Receiving();
      if ctxDone && (!(room || receiving) || preferCancel) {
        return;
      }
      if room {
        taskq := taskq + [t];
        submitted := submitted + [t];
        signals := signals + [Accepted(t)];
      } else if receiving {
        inHand := Some(t);
        submitted := submitted + [t];
        signals := signals + [Accepted(t)];
      } else {
        signals := signals + [Rejected(t)];
      }
    }

    /** One turn of `Run`'s loop, as in the web pool. */
    method Step(ctxDone: bool, preferCancel: bool)
      requires Valid()
      modifies this`taskq, this`inHand, this`handed, this`idle, this`phase
      ensures Valid() && submitted == old(submitted) && |handed| >= |old(handed)|
      ensures old(phase) != Running ==> phase == old(phase) && taskq == old(taskq) && handed == old(handed)
      ensures old(phase) == Running && old(inHand).Some? && old(idle) > 0 ==>
        handed == old(handed) + [old(inHand).value] && idle == old(idle) - 1 && inHand.None? && taskq == old(taskq)
      ensures old(phase) == Running && old(inHand).None? && old(taskq) != [] && !(ctxDone && preferCancel) ==>
        inHand == Some(old(taskq)[0]) && taskq == old(taskq)[1..] && handed == old(handed)
      ensures phase == Stopped <==> old(phase) == Stopped || (old(phase) == Running && old(inHand).None? && ctxDone && (old(taskq) == [] || preferCancel))
    {
      if phase != Running {
        return;
      }
      if inHand.Some? {
        if idle > 0 {
          handed := handed + [inHand.value];
          idle := idle - 1;
          inHand := None;
        }
        return;
      }
      if ctxDone && (taskq == [] || preferCancel) {
        phase := Stopped;
        return;
      }
      if taskq != [] {
        inHand := Some(taskq[0]);
        taskq := taskq[1..];
      }
    }

    method WorkerDone()
      requires Valid() && idle < |workers|
      modifies this`idle
      ensures Valid() && idle == old(idle) + 1
    {
      idle := idle + 1;
    }
  }

  /** `NewWorkerPool`: a pool with the clamped sizes, or the argument error. */
  method NewWorkerPool<T>(workernum: nat, qbuffer: int) returns (r: Result<WorkerPool<T>, string>)
    ensures r.Failure? <==> PoolSizes(workernum, qbuffer).Failure?
    ensures r.Failure? ==> r.error == PoolSizes(workernum, qbuffer).error
    ensures r.Success? ==>
      && fresh(r.value) && r.value.Valid()
      && Sizes(r.value.workerCap, r.value.capacity) == PoolSizes(workernum, qbuffer).value
      && r.value.phase == Created && r.value.taskq == [] && r.value.signals == []
  {
    var sizes := PoolSizes(workernum, qbuffer);
    if sizes.Failure? {
      return Failure(sizes.error);
    }
    var wp := new WorkerPool<T>(sizes.value.workers, sizes.value.queue);
    return Success(wp);
  }

  /**
   * The room hub's pool, `NewWorkerPool(1, 1)`: its queue is unbuffered,
   * and once running it accepts a task sent while `Run` waits on the queue.
   */
  method UnbufferedSubmit<T>(t: T) returns (s: seq<Signal<T>>)
    ensures s == [Accepted(t)]
  {
    var r := NewWorkerPool<T>(1, 1);
    assert PoolSizes(1, 1).value == Sizes(1, 0);
    var wp := r.value;
    wp.Start(true);
    wp.Submit(false, false, t);
    s := wp.signals;
  }
}
